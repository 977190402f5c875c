/**
 Expression wrappers in text: where an expression ends, and how a text splits into literals and
 expressions. The wrapper scanner and the lexer read quotes independently; they agree on every
 source that the lexer accepts.
 */
module Templates {
  import opened Text
  import opened Expressions
  import opened Lexer

  const OPEN := "${{"
  const CLOSE := "}}"

  // ----- the end of an expression

  /** The first closing braces outside quotes, from a position on. */
  function EndFrom(body: string, i: nat, quoted: bool): (end: Option<nat>)
    requires i <= |body|
    ensures end.Some? ==>
      i <= end.value && end.value + 2 <= |body| && body[end.value] == '}' && body[end.value + 1] == '}'
    decreases |body| - i
  {
    if i == |body| then None
    else if body[i] == '\'' then
      if quoted && Has(body, i + 1, '\'') then EndFrom(body, i + 2, quoted) else EndFrom(body, i + 1, !quoted)
    else if !quoted && body[i] == '}' && Has(body, i + 1, '}') then Some(i)
    else EndFrom(body, i + 1, quoted)
  }

  function ExpressionEnd(body: string): Option<nat> {
    EndFrom(body, 0, false)
  }

  method FindExpressionEnd(body: string) returns (end: Option<nat>)
    ensures end == ExpressionEnd(body)
  {
    var quoted := false;
    var index := 0;
    while index < |body|
      invariant index <= |body| && ExpressionEnd(body) == EndFrom(body, index, quoted)
      decreases |body| - index
    {
      if body[index] == '\'' {
        if quoted && index + 1 < |body| && body[index + 1] == '\'' {
          index := index + 1;
        } else {
          quoted := !quoted;
        }
      } else if !quoted && body[index] == '}' && index + 1 < |body| && body[index + 1] == '}' {
        return Some(index);
      }
      index := index + 1;
    }
    end := None;
  }

  /** The scanner finds the wrapper's own end after this source. */
  predicate WellScanned(source: string) {
    ExpressionEnd(source + CLOSE) == Some(|source|)
  }

  // ----- the scanner and the lexer agree

  lemma {:induction false} ScanPlain(body: string, i: nat, n: nat)
    requires i <= n <= |body| && forall j | i <= j < n :: body[j] != '\'' && body[j] != '}'
    ensures EndFrom(body, i, false) == EndFrom(body, n, false)
    decreases n - i
  {
    if i < n { ScanPlain(body, i + 1, n); }
  }

  /** Inside a string literal the scanner goes to the closing quote that the lexer finds. */
  lemma {:induction false} ScanString(source: string, rest: string, i: nat)
    requires i <= |source| && StringAt(source, i).Took? && (rest == [] || rest[0] != '\'')
    ensures StringAt(source, i).next <= |source|
    ensures EndFrom(source + rest, i, true) == EndFrom(source + rest, StringAt(source, i).next, false)
    decreases |source| - i
  {
    var body := source + rest;
    StringAtBounds(source, i);
    assert Has(body, i + 1, '\'') <==> Has(source, i + 1, '\'');
    if !(source[i] == '\'' && !Has(source, i + 1, '\'')) {
      ScanString(source, rest, if source[i] == '\'' then i + 2 else i + 1);
    }
  }

  lemma {:induction false} ScanLexed(source: string, rest: string, i: nat, finite: string -> bool)
    requires i <= |source| && LexFrom(source, i, finite).Some?
    ensures EndFrom(source + CLOSE + rest, i, false) == Some(|source|)
    decreases |source| - i
  {
    var body := source + CLOSE + rest;
    if i < |source| {
      assert body[i] == source[i];
      if Space(source[i]) {
        ScanLexed(source, rest, i + 1, finite);
      } else {
        var t := TokenAt(source, i, finite);
        TokenAdvances(source, i, finite);
        if source[i] == '\'' {
          assert body == source + (CLOSE + rest);
          ScanString(source, CLOSE + rest, i + 1);
        } else {
          ScanPlain(body, i, t.next);
        }
        ScanLexed(source, rest, t.next, finite);
      }
    } else {
      assert body[i] == '}' && body[i + 1] == '}';
    }
  }

  /** Whatever follows the wrapper, a source that the lexer accepts ends where the scanner says. */
  lemma {:induction false} LexedIsWellScanned(source: string, rest: string, finite: string -> bool)
    requires Lex(source, finite).Some?
    ensures WellScanned(source) && ExpressionEnd(source + CLOSE + rest) == Some(|source|)
  {
    ScanLexed(source, rest, 0, finite);
    ScanLexed(source, [], 0, finite);
    assert source + CLOSE + [] == source + CLOSE;
  }

  /** What follows the closing braces does not matter. */
  lemma {:induction false} EndIsLocal(body: string, rest: string, i: nat, quoted: bool)
    requires i <= |body| && EndFrom(body, i, quoted).Some?
    ensures EndFrom(body + rest, i, quoted) == EndFrom(body, i, quoted)
    decreases |body| - i
  {
    assert (body + rest)[i] == body[i];
    if body[i] == '\'' {
      assert i + 1 < |body|;
      assert (body + rest)[i + 1] == body[i + 1];
      if quoted && Has(body, i + 1, '\'') { EndIsLocal(body, rest, i + 2, quoted); } else { EndIsLocal(body, rest, i + 1, !quoted); }
    } else if !quoted && body[i] == '}' && Has(body, i + 1, '}') {
    } else {
      assert i + 1 < |body|;
      assert (body + rest)[i + 1] == body[i + 1];
      EndIsLocal(body, rest, i + 1, quoted);
    }
  }

  /** And conversely, an end found in a longer text is the end of the text up to it. */
  lemma {:induction false} EndIsOwn(body: string, i: nat, quoted: bool)
    requires i <= |body| && EndFrom(body, i, quoted).Some?
    ensures var end := EndFrom(body, i, quoted).value;
      EndFrom(body[..end + 2], i, quoted) == Some(end)
    decreases |body| - i
  {
    var end := EndFrom(body, i, quoted).value;
    var own := body[..end + 2];
    assert i <= end && own[i] == body[i] && own[i + 1] == body[i + 1];
    if body[i] == '\'' {
      if quoted && Has(body, i + 1, '\'') {
        EndIsOwn(body, i + 2, quoted);
      } else {
        EndIsOwn(body, i + 1, !quoted);
      }
    } else if !quoted && body[i] == '}' && Has(body, i + 1, '}') {
    } else {
      EndIsOwn(body, i + 1, quoted);
    }
  }

  // ----- whole expressions

  /** The source of a text that is one wrapped expression. */
  function WholeExpression(text: string): Option<string> {
    if !OpensAt(text, 0) then None
    else
      var body := text[3..];
      var end := ExpressionEnd(body);
      if end.Some? && end.value + 2 == |body| then Some(body[..end.value]) else None
  }

  /** A text is a whole expression exactly when it is the wrapping of a well-scanned source, and the
      source is returned verbatim. */
  lemma {:induction false} WholeIsWrapped(text: string, source: string)
    ensures WholeExpression(text) == Some(source) <==> text == OPEN + source + CLOSE && WellScanned(source)
  {
    if WholeExpression(text) == Some(source) {
      var body := text[3..];
      assert body == source + CLOSE;
      assert text[..3] == OPEN;
      assert text == OPEN + body;
    }
    if text == OPEN + source + CLOSE && WellScanned(source) {
      assert text[3..] == source + CLOSE && OpensAt(text, 0);
      assert (source + CLOSE)[..|source|] == source;
    }
  }

  /** Wrapping any source that the lexer accepts returns it verbatim. */
  lemma {:induction false} WrappedLexedSource(source: string, finite: string -> bool)
    requires Lex(source, finite).Some?
    ensures WholeExpression(OPEN + source + CLOSE) == Some(source)
  {
    LexedIsWellScanned(source, [], finite);
    WholeIsWrapped(OPEN + source + CLOSE, source);
  }

  // ----- templates

  datatype Part = LiteralPart(text: string) | ExpressionPart(source: string)

  datatype Template = PlainText(text: string) | OneExpression(source: string) | Parts(parts: seq<Part>) | Unterminated

  /** A wrapper opens at a position. */
  predicate OpensAt(text: string, i: nat) {
    i + 3 <= |text| && text[i] == '$' && text[i + 1] == '{' && text[i + 2] == '{'
  }

  /** The first opening of a wrapper from a position on; the length if there is none. */
  function OpeningFrom(text: string, i: nat): (start: nat)
    requires i <= |text|
    ensures i <= start <= |text| && (start < |text| ==> OpensAt(text, start)) && forall j | i <= j < start :: !OpensAt(text, j)
    decreases |text| - i
  {
    if i == |text| || OpensAt(text, i) then i else OpeningFrom(text, i + 1)
  }

  function Opening(text: string): nat {
    OpeningFrom(text, 0)
  }

  predicate Opens(text: string) {
    Opening(text) < |text|
  }

  /** The parts of a text; nothing if a wrapper does not end. */
  function Split(text: string): Option<seq<Part>>
    decreases |text|
  {
    if text == [] then Some([])
    else if !Opens(text) then Some([LiteralPart(text)])
    else
      var start := Opening(text);
      var body := text[start + 3..];
      var end := ExpressionEnd(body);
      if end.None? then None
      else
        var rest := Split(body[end.value + 2..]);
        if rest.None? then None
        else Some((if start > 0 then [LiteralPart(text[..start])] else []) + [ExpressionPart(body[..end.value])] + rest.value)
  }

  function Render(parts: seq<Part>): string {
    if parts == [] then ""
    else
      (match parts[0]
       case LiteralPart(text) => text
       case ExpressionPart(source) => OPEN + source + CLOSE) + Render(parts[1..])
  }

  /** Literals are nonempty, do not open a wrapper, and are not adjacent; sources are well scanned. */
  predicate Alternating(parts: seq<Part>) {
    parts != [] ==>
      Alternating(parts[1..])
      && match parts[0]
         case LiteralPart(text) => text != [] && !Opens(text) && (|parts| > 1 ==> parts[1].ExpressionPart?)
         case ExpressionPart(source) => WellScanned(source)
  }

  /** A wrapper after a literal opens where the literal ends: no opening straddles the two. */
  lemma {:induction false} OpeningAfter(literal: string, rest: string)
    requires !Opens(literal) && (rest == [] || OpensAt(rest, 0))
    ensures Opening(literal + rest) == |literal|
  {
    var text := literal + rest;
    forall j | 0 <= j < |literal| ensures !OpensAt(text, j) {
      assert !OpensAt(literal, j);
      assert forall k | 0 <= k < |literal| :: text[k] == literal[k];
      assert rest != [] ==> text[|literal|] == '$';
    }
    if rest != [] {
      assert text[|literal|] == rest[0] && text[|literal| + 1] == rest[1] && text[|literal| + 2] == rest[2];
      assert OpensAt(text, |literal|);
    }
  }

  lemma {:induction false} SplitExpression(source: string, rest: string)
    requires WellScanned(source)
    ensures var text := OPEN + source + CLOSE + rest;
      text != [] && Opening(text) == 0 && Opens(text) && text[3..] == source + CLOSE + rest
      && ExpressionEnd(text[3..]) == Some(|source|) && text[3..][..|source|] == source && text[3..][|source| + 2..] == rest
  {
    var text := OPEN + source + CLOSE + rest;
    assert OpensAt(text, 0);
    EndIsLocal(source + CLOSE, rest, 0, false);
  }

  function After(first: Part, rest: Option<seq<Part>>): Option<seq<Part>> {
    if rest.None? then None else Some([first] + rest.value)
  }

  lemma {:induction false} SplitLeadingLiteral(literal: string, rest: string)
    requires literal != [] && !Opens(literal) && (rest == [] || OpensAt(rest, 0))
    ensures Split(literal + rest) == After(LiteralPart(literal), Split(rest))
  {
    var text := literal + rest;
    OpeningAfter(literal, rest);
    if rest == [] {
      assert text == literal;
      assert [LiteralPart(literal)] + [] == [LiteralPart(literal)];
    } else {
      assert Opening(rest) == 0;
      assert text[..|literal|] == literal && text[|literal| + 3..] == rest[3..];
      SplitAfterLiteral(literal, text, rest[3..]);
      assert Split(rest) == SplitBody([], rest[3..]);
    }
  }

  /** The parts of a text from an opening on. */
  function SplitBody(before: seq<Part>, body: string): Option<seq<Part>> {
    var end := ExpressionEnd(body);
    if end.None? then None
    else
      var rest := Split(body[end.value + 2..]);
      if rest.None? then None else Some(before + [ExpressionPart(body[..end.value])] + rest.value)
  }

  lemma {:induction false} SplitAfterLiteral(literal: string, text: string, body: string)
    requires Opens(text) && Opening(text) == |literal| > 0 && text[..|literal|] == literal && text[|literal| + 3..] == body
    ensures Split(text) == After(LiteralPart(literal), SplitBody([], body))
  {
    assert Split(text) == SplitBody([LiteralPart(literal)], body);
    var end := ExpressionEnd(body);
    if end.Some? && Split(body[end.value + 2..]).Some? {
      var e, tail := ExpressionPart(body[..end.value]), Split(body[end.value + 2..]).value;
      assert [LiteralPart(literal)] + [e] + tail == [LiteralPart(literal)] + ([] + [e] + tail);
    }
  }

  function Lead(text: string): seq<Part> {
    if Opening(text) > 0 then [LiteralPart(text[..Opening(text)])] else []
  }

  lemma {:induction false} SplitIs(text: string)
    requires Opens(text)
    ensures text != [] && Opening(text) + 3 <= |text| && Split(text) == SplitBody(Lead(text), text[Opening(text) + 3..])
  {}

  lemma {:induction false} SplitLeadingExpression(source: string, rest: string)
    requires WellScanned(source)
    ensures Split(OPEN + source + CLOSE + rest) == After(ExpressionPart(source), Split(rest))
  {
    var text := OPEN + source + CLOSE + rest;
    SplitExpression(source, rest);
    SplitAtStart(text, source, rest);
  }

  lemma {:induction false} SplitAtStart(text: string, source: string, rest: string)
    requires Opens(text) && Opening(text) == 0 && |text| >= 3 && ExpressionEnd(text[3..]) == Some(|source|)
    requires text[3..][..|source|] == source && text[3..][|source| + 2..] == rest
    ensures Split(text) == After(ExpressionPart(source), Split(rest))
  {
    SplitIs(text);
    BodyWithoutLead(text[3..], source, rest);
  }

  lemma {:induction false} BodyWithoutLead(body: string, source: string, rest: string)
    requires ExpressionEnd(body) == Some(|source|) && body[..|source|] == source && body[|source| + 2..] == rest
    ensures SplitBody([], body) == After(ExpressionPart(source), Split(rest))
  {
    if Split(rest).Some? { assert [] + [ExpressionPart(source)] + Split(rest).value == [ExpressionPart(source)] + Split(rest).value; }
  }

  /** Splitting undoes rendering. */
  lemma {:induction false} SplitRendered(parts: seq<Part>)
    requires Alternating(parts)
    ensures Split(Render(parts)) == Some(parts)
  {
    if parts != [] {
      var rest := Render(parts[1..]);
      SplitRendered(parts[1..]);
      assert parts == [parts[0]] + parts[1..];
      if parts[0].ExpressionPart? {
        SplitLeadingExpression(parts[0].source, rest);
      } else {
        if parts[1..] != [] { assert OpensAt(rest, 0); }
        SplitLeadingLiteral(parts[0].text, rest);
      }
    }
  }

  /** Splitting loses nothing: the parts alternate and render to the text. */
  lemma {:induction false} RenderSplit(text: string)
    requires Split(text).Some?
    ensures Alternating(Split(text).value) && Render(Split(text).value) == text
    decreases |text|
  {
    if text != [] {
      if !Opens(text) {
        assert [LiteralPart(text)][1..] == [];
      } else {
        var body := text[Opening(text) + 3..];
        RenderSplit(body[ExpressionEnd(body).value + 2..]);
        RenderOpened(text, Opening(text), body, ExpressionEnd(body).value);
      }
    }
  }

  lemma {:induction false} RenderOpened(text: string, start: nat, body: string, end: nat)
    requires Opens(text) && start == Opening(text) && body == text[start + 3..] && Split(text).Some?
    requires ExpressionEnd(body) == Some(end) && Split(body[end + 2..]).Some?
    requires var rest := Split(body[end + 2..]).value; Alternating(rest) && Render(rest) == body[end + 2..]
    ensures Alternating(Split(text).value) && Render(Split(text).value) == text
  {
    var literal := text[..start];
    var rest := Split(body[end + 2..]).value;
    var parts := [ExpressionPart(body[..end])] + rest;
    RenderBody(body, end);
    LiteralDoesNotOpen(text, start);
    OpenedText(text, start);
    RenderLiteral(literal, OPEN + body, parts);
    assert parts[0] == ExpressionPart(body[..end]) && parts[1..] == rest;
    SplitIs(text);
    assert SplitBody(Lead(text), body) == Some(Lead(text) + [parts[0]] + parts[1..]);
  }

  lemma {:induction false} OpenedText(text: string, start: nat)
    requires OpensAt(text, start)
    ensures text == text[..start] + (OPEN + text[start + 3..])
  {
    assert text[start..start + 3] == OPEN;
  }

  lemma {:induction false} RenderBody(body: string, end: nat)
    requires ExpressionEnd(body) == Some(end) && Split(body[end + 2..]).Some?
    requires var rest := Split(body[end + 2..]).value; Alternating(rest) && Render(rest) == body[end + 2..]
    ensures var parts := [ExpressionPart(body[..end])] + Split(body[end + 2..]).value;
      Alternating(parts) && Render(parts) == OPEN + body
  {
    EndIsOwn(body, 0, false);
    Wrapped(body, end);
    RenderWrapped(body[..end], body[end + 2..], Split(body[end + 2..]).value);
  }

  lemma {:induction false} Wrapped(body: string, end: nat)
    requires end + 2 <= |body| && body[end] == '}' && body[end + 1] == '}'
    ensures body[..end + 2] == body[..end] + CLOSE && OPEN + body[..end] + CLOSE + body[end + 2..] == OPEN + body
  {
    assert body[..end + 2] == body[..end] + CLOSE;
    assert body == body[..end + 2] + body[end + 2..];
  }

  lemma {:induction false} RenderWrapped(source: string, text: string, rest: seq<Part>)
    requires WellScanned(source) && Alternating(rest) && Render(rest) == text
    ensures var parts := [ExpressionPart(source)] + rest;
      Alternating(parts) && Render(parts) == OPEN + source + CLOSE + text
  {
    var parts := [ExpressionPart(source)] + rest;
    assert parts[1..] == rest;
  }

  lemma {:induction false} RenderLiteral(literal: string, text: string, parts: seq<Part>)
    requires !Opens(literal) && Alternating(parts) && parts != [] && parts[0].ExpressionPart? && Render(parts) == text
    ensures var all := (if |literal| > 0 then [LiteralPart(literal)] else []) + [parts[0]] + parts[1..];
      Alternating(all) && Render(all) == literal + text
  {
    assert parts == [parts[0]] + parts[1..];
    if |literal| > 0 {
      var all := [LiteralPart(literal)] + [parts[0]] + parts[1..];
      assert all == [LiteralPart(literal)] + parts && all[1..] == parts && all[1] == parts[0];
    } else {
      assert [] + [parts[0]] + parts[1..] == parts && literal + text == text;
    }
  }

  lemma {:induction false} LiteralDoesNotOpen(text: string, start: nat)
    requires start == Opening(text)
    ensures !Opens(text[..start])
  {
    assert forall j | 0 <= j < start :: OpensAt(text[..start], j) ==> OpensAt(text, j);
  }

  /** So a text splits into given parts exactly when they alternate and render to it. */
  lemma {:induction false} SplitsExactly(text: string, parts: seq<Part>)
    ensures Split(text) == Some(parts) <==> Alternating(parts) && Render(parts) == text
  {
    if Split(text) == Some(parts) { RenderSplit(text); }
    if Alternating(parts) { SplitRendered(parts); }
  }

  /** The template of a text, before its expressions are compiled. */
  function TemplateOf(text: string): Template {
    if !Opens(text) then PlainText(text)
    else if WholeExpression(text).Some? then OneExpression(WholeExpression(text).value)
    else if Split(text).None? then Unterminated
    else Parts(Split(text).value)
  }

  /** The splitting loop. */
  method StringTemplate(text: string) returns (t: Template)
    ensures t == TemplateOf(text)
  {
    if !Opens(text) {
      return PlainText(text);
    }
    var whole := WholeExpression(text);
    if whole.Some? {
      return OneExpression(whole.value);
    }
    var parts: seq<Part> := [];
    var remaining := text;
    PrependNothing(Split(text));
    while Opens(remaining)
      invariant Split(text) == Prepended(parts, Split(remaining))
      decreases |remaining|
    {
      ghost var before, all := parts, Split(remaining);
      var start := Opening(remaining);
      var literal := if start > 0 then [LiteralPart(remaining[..start])] else [];
      var body := remaining[start + 3..];
      assert all == SplitBody(literal, body);
      var end := FindExpressionEnd(body);
      if end.None? {
        return Unterminated;
      }
      parts := parts + literal + [ExpressionPart(body[..end.value])];
      remaining := body[end.value + 2..];
      PrependStep(before, literal + [ExpressionPart(body[..end.value])], parts, Split(remaining));
    }
    if remaining != "" {
      parts := parts + [LiteralPart(remaining)];
    } else {
      assert parts + [] == parts;
    }
    t := Parts(parts);
  }

  function Prepended(done: seq<Part>, rest: Option<seq<Part>>): Option<seq<Part>> {
    if rest.None? then None else Some(done + rest.value)
  }

  lemma {:induction false} PrependNothing(rest: Option<seq<Part>>)
    ensures Prepended([], rest) == rest
  {
    if rest.Some? { assert [] + rest.value == rest.value; }
  }

  lemma {:induction false} PrependStep(before: seq<Part>, more: seq<Part>, parts: seq<Part>, rest: Option<seq<Part>>)
    requires parts == before + more
    ensures Prepended(before, Prepended(more, rest)) == Prepended(parts, rest)
  {
    if rest.Some? { assert before + (more + rest.value) == parts + rest.value; }
  }
}
