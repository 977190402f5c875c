/**
 One reduction of one fit target: the oldest array record, or the middle of a text. A run of
 reductions keeps a suffix of the records, or a head and a tail around one marker, and every
 successful reduction makes the encoded value strictly shorter.
 */
module FitReduction {
  import opened Text
  import opened Json

  const TRUNCATE_CHUNK_BYTES: nat := 1024
  const MINIMUM_TEXT_BYTES: nat := 256

  /** A line feed, `[... omitted ...]`, and a line feed. */
  const OMISSION_MARKER: Bytes :=
    [0x0A, 0x5B, 0x2E, 0x2E, 0x2E, 0x20, 0x6F, 0x6D, 0x69, 0x74, 0x74, 0x65, 0x64, 0x20, 0x2E, 0x2E, 0x2E, 0x5D, 0x0A]

  datatype Strategy = Recent | Truncate

  datatype Target = Target(pointer: string, path: string, strategy: Strategy, originalCount: nat, retainedCount: nat,
                           originalText: Option<Bytes>, exhausted: bool)

  /** A target with the value at its place. */
  datatype Piece = Piece(value: Json, target: Target)

  // ----- character boundaries

  /** A byte that continues a character. */
  predicate Continuation(b: byte) {
    128 <= b < 192
  }

  predicate IsBoundary(text: Bytes, i: nat) {
    i <= |text| && (i == 0 || i == |text| || !Continuation(text[i]))
  }

  function NextBoundary(text: Bytes, i: nat): (b: nat)
    requires i <= |text|
    ensures i <= b && IsBoundary(text, b) && forall j | i <= j < b :: !IsBoundary(text, j)
    decreases |text| - i
  {
    if IsBoundary(text, i) then i else NextBoundary(text, i + 1)
  }

  function PreviousBoundary(text: Bytes, i: nat): (b: nat)
    requires i <= |text|
    ensures b <= i && IsBoundary(text, b) && forall j | b < j <= i :: !IsBoundary(text, j)
  {
    if IsBoundary(text, i) then i else PreviousBoundary(text, i - 1)
  }

  function HeadEnd(text: Bytes, keep: nat): (head: nat)
    requires keep <= |text|
    ensures (keep + 1) / 2 <= head && IsBoundary(text, head)
  {
    NextBoundary(text, (keep + 1) / 2)
  }

  function TailStart(text: Bytes, keep: nat): (tail: nat)
    requires keep <= |text|
    ensures tail <= |text| - keep / 2 && IsBoundary(text, tail)
  {
    PreviousBoundary(text, |text| - keep / 2)
  }

  /** Original bytes that stay. */
  function Kept(text: Bytes, keep: nat): (count: nat)
    requires keep <= |text|
    ensures count >= keep
  {
    HeadEnd(text, keep) + |text| - TailStart(text, keep)
  }

  /** The text around one marker. */
  function Marked(text: Bytes, head: nat, tail: nat): Bytes
    requires head <= |text| && tail <= |text|
  {
    text[..head] + OMISSION_MARKER + text[tail..]
  }

  // ----- reductions

  /** The value has the type that the target's strategy reduces, and the saved text has the saved length. */
  predicate Ready(p: Piece) {
    match p.target.strategy
    case Recent => p.value.Array? && p.target.retainedCount >= 1
    case Truncate => p.value.String? && p.target.retainedCount <= |OriginalText(p)|
  }

  function OriginalText(p: Piece): Bytes
    requires p.value.String?
  {
    if p.target.originalText.Some? then p.target.originalText.value else p.value.text
  }

  function NextKeep(retained: nat): nat {
    var less := if retained >= TRUNCATE_CHUNK_BYTES then retained - TRUNCATE_CHUNK_BYTES else 0;
    if less < MINIMUM_TEXT_BYTES then MINIMUM_TEXT_BYTES else less
  }

  function ReduceRecent(p: Piece): Piece
    requires p.target.strategy.Recent? && Ready(p)
  {
    var items := p.value.items;
    if |items| <= 1 then p.(target := p.target.(exhausted := true))
    else
      Piece(Array(items[1..]), p.target.(retainedCount := p.target.retainedCount - 1, exhausted := |items| == 2))
  }

  /** Whether the next cut would drop original text, and on the first cut more than the marker costs. */
  predicate CutHelps(t: Target, text: Bytes, keep: nat)
    requires keep <= |text| && t.retainedCount <= |text|
  {
    Kept(text, keep) < t.retainedCount
    && (t.retainedCount == t.originalCount ==>
          BytesCost(text[HeadEnd(text, keep)..TailStart(text, keep)]) > BytesCost(OMISSION_MARKER))
  }

  function ReduceText(p: Piece): Piece
    requires p.target.strategy.Truncate? && Ready(p)
  {
    var t := p.target;
    if t.retainedCount <= MINIMUM_TEXT_BYTES then p.(target := t.(exhausted := true))
    else
      var text := OriginalText(p);
      var keep := NextKeep(t.retainedCount);
      if CutHelps(t, text, keep) then
        Piece(String(Marked(text, HeadEnd(text, keep), TailStart(text, keep))),
              t.(originalText := Some(text), retainedCount := Kept(text, keep), exhausted := keep == MINIMUM_TEXT_BYTES))
      else p.(target := t.(originalText := Some(text), exhausted := true))
  }

  function Reduce(p: Piece): Piece
    requires Ready(p)
  {
    if p.target.strategy.Recent? then ReduceRecent(p) else ReduceText(p)
  }

  /** One turn of a target. */
  function Turn(p: Piece): Piece {
    if p.target.exhausted || !Ready(p) then p else Reduce(p)
  }

  /** A target by itself after some turns. */
  function After(p: Piece, turns: nat): Piece {
    if turns == 0 then p else Turn(After(p, turns - 1))
  }

  // ----- what every turn keeps

  function CountOf(v: Json, strategy: Strategy): nat {
    match strategy
    case Recent => if v.Array? then |v.items| else 0
    case Truncate => if v.String? then |v.text| else 0
  }

  function MinimumOf(strategy: Strategy): nat {
    match strategy
    case Recent => 1
    case Truncate => MINIMUM_TEXT_BYTES
  }

  predicate HasType(v: Json, strategy: Strategy) {
    match strategy
    case Recent => v.Array?
    case Truncate => v.String?
  }

  /** A target as it is expanded. */
  predicate Fresh(p: Piece) {
    HasType(p.value, p.target.strategy)
    && p.target.originalCount == p.target.retainedCount == CountOf(p.value, p.target.strategy)
    && p.target.originalCount > MinimumOf(p.target.strategy)
    && p.target.originalText.None? && !p.target.exhausted
  }

  /** The same target apart from its progress. */
  predicate SameTarget(a: Target, b: Target) {
    a.pointer == b.pointer && a.path == b.path && a.strategy == b.strategy && a.originalCount == b.originalCount
  }

  /** A nonempty suffix of the original records, as long as the retained count. */
  predicate IsSuffix(original: seq<Json>, items: seq<Json>, retained: nat) {
    1 <= retained <= |original| && items == original[|original| - retained..]
  }

  /** The head and tail of the original that keep this many bytes, around one marker. */
  predicate CutAt(original: Bytes, text: Bytes, retained: nat, keep: nat) {
    MINIMUM_TEXT_BYTES <= keep <= |original| && retained == Kept(original, keep) < |original|
    && text == Marked(original, HeadEnd(original, keep), TailStart(original, keep))
  }

  /** The original text, or its head and tail around one marker, cut between characters. */
  ghost predicate IsCut(original: Bytes, text: Bytes, retained: nat) {
    (retained == |original| && text == original) || exists keep: nat :: CutAt(original, text, retained, keep)
  }

  /** A text target in progress: the saved text is the original, and nothing is cut before it is saved. */
  ghost predicate ReducedText(original: Bytes, text: Bytes, saved: Option<Bytes>, retained: nat) {
    IsCut(original, text, retained)
    && (saved.None? ==> retained == |original|)
    && (saved.Some? ==> saved.value == original)
  }

  /** The same target, with a retained count between the minimum and the original count. */
  predicate InProgress(start: Target, t: Target) {
    SameTarget(start, t) && MinimumOf(start.strategy) <= t.retainedCount <= start.originalCount
  }

  /** What a target and its value look like after any number of turns. */
  ghost predicate Reduced(start: Piece, p: Piece) {
    match start.target.strategy
    case Recent =>
      InProgress(start.target, p.target) && start.value.Array? && p.value.Array? && p.target.originalText.None?
      && IsSuffix(start.value.items, p.value.items, p.target.retainedCount)
      && (p.target.exhausted <==> p.target.retainedCount == 1)
    case Truncate =>
      InProgress(start.target, p.target) && start.value.String? && p.value.String?
      && start.target.originalCount == |start.value.text|
      && ReducedText(start.value.text, p.value.text, p.target.originalText, p.target.retainedCount)
  }

  lemma {:induction false} ReducedIsReady(start: Piece, p: Piece)
    requires Fresh(start) && Reduced(start, p)
    ensures Ready(p) && (p.target.strategy.Truncate? ==> OriginalText(p) == start.value.text)
  {}

  lemma {:induction false} FreshIsReduced(start: Piece)
    requires Fresh(start)
    ensures Reduced(start, start)
  {}

  /** A turn that shortened the value. */
  predicate Progressed(p: Piece, next: Piece) {
    next.target.retainedCount < p.target.retainedCount
  }

  lemma {:induction false} RecentTurn(start: Piece, p: Piece)
    requires Fresh(start) && Reduced(start, p) && start.target.strategy.Recent? && !p.target.exhausted
    ensures var next := Turn(p);
      Reduced(start, next) && next.target.retainedCount == p.target.retainedCount - 1
      && EncodedLength(next.value) < EncodedLength(p.value)
  {
    var items, original := p.value.items, start.value.items;
    assert |items| >= 2;
    assert items[1..] == original[|original| - (p.target.retainedCount - 1)..];
    assert ItemsLength(items) == EncodedLength(items[0]) + 1 + ItemsLength(items[1..]);
  }

  /** Keeping more does not move the cuts inwards. */
  lemma {:induction false} CutsAreMonotone(text: Bytes, less: nat, more: nat)
    requires less <= more <= |text|
    ensures HeadEnd(text, less) <= HeadEnd(text, more) && TailStart(text, more) <= TailStart(text, less)
    ensures Kept(text, less) <= Kept(text, more)
  {
    assert (less + 1) / 2 <= (more + 1) / 2 && less / 2 <= more / 2;
    assert IsBoundary(text, HeadEnd(text, more)) && IsBoundary(text, TailStart(text, more));
  }

  /** Whether the next turn of a text target cuts. */
  predicate WillCut(p: Piece)
    requires Ready(p) && p.target.strategy.Truncate?
  {
    p.target.retainedCount > MINIMUM_TEXT_BYTES
    && CutHelps(p.target, OriginalText(p), NextKeep(p.target.retainedCount))
  }

  lemma {:induction false} TextStays(start: Piece, p: Piece)
    requires Fresh(start) && Reduced(start, p) && start.target.strategy.Truncate? && Ready(p) && OriginalText(p) == start.value.text
    requires !WillCut(p)
    ensures var next := ReduceText(p);
      Reduced(start, next) && next.value == p.value && next.target.exhausted
      && next.target.retainedCount == p.target.retainedCount
  {}

  lemma {:induction false} TextShortens(start: Piece, p: Piece)
    requires Fresh(start) && Reduced(start, p) && start.target.strategy.Truncate? && Ready(p) && OriginalText(p) == start.value.text
    requires WillCut(p)
    ensures var next := ReduceText(p);
      Reduced(start, next) && Progressed(p, next)
      && next.target.retainedCount + TRUNCATE_CHUNK_BYTES >= p.target.retainedCount
      && EncodedLength(next.value) < EncodedLength(p.value)
  {
    var original := start.value.text;
    var keep := NextKeep(p.target.retainedCount);
    ShortenedIs(p, original, keep);
    CutTurn(p.target, original, p.value.text, keep);
    ShortenedReduces(start, p, ReduceText(p), original, keep);
  }

  lemma {:induction false} ShortenedReduces(start: Piece, p: Piece, next: Piece, original: Bytes, keep: nat)
    requires Reduced(start, p) && start.target.strategy.Truncate? && original == start.value.text
    requires MINIMUM_TEXT_BYTES <= keep <= |original| && Kept(original, keep) < |original|
    requires var text := Marked(original, HeadEnd(original, keep), TailStart(original, keep));
      next.value == String(text) && ReducedText(original, text, Some(original), Kept(original, keep))
      && BytesCost(text) < BytesCost(p.value.text)
    requires SameTarget(p.target, next.target) && next.target.retainedCount == Kept(original, keep)
    requires next.target.originalText == Some(original)
    ensures Reduced(start, next) && EncodedLength(next.value) < EncodedLength(p.value)
  {
    assert EncodedLength(next.value) == 2 + BytesCost(next.value.text);
    assert EncodedLength(p.value) == 2 + BytesCost(p.value.text);
  }

  lemma {:induction false} ShortenedIs(p: Piece, original: Bytes, keep: nat)
    requires p.target.strategy.Truncate? && Ready(p) && WillCut(p)
    requires OriginalText(p) == original && keep == NextKeep(p.target.retainedCount)
    ensures MINIMUM_TEXT_BYTES <= keep <= p.target.retainedCount <= |original|
    ensures keep + TRUNCATE_CHUNK_BYTES >= p.target.retainedCount && Kept(original, keep) < p.target.retainedCount
    ensures var next := ReduceText(p);
      next.value == String(Marked(original, HeadEnd(original, keep), TailStart(original, keep)))
      && SameTarget(p.target, next.target) && next.target.retainedCount == Kept(original, keep)
      && next.target.originalText == Some(original)
  {}

  lemma {:induction false} TextTurn(start: Piece, p: Piece)
    requires Fresh(start) && Reduced(start, p) && start.target.strategy.Truncate? && !p.target.exhausted
    ensures var next := Turn(p);
      Reduced(start, next)
      && (if Progressed(p, next)
          then next.target.retainedCount + TRUNCATE_CHUNK_BYTES >= p.target.retainedCount
               && EncodedLength(next.value) < EncodedLength(p.value)
          else next.value == p.value && next.target.exhausted && next.target.retainedCount == p.target.retainedCount)
  {
    ReducedIsReady(start, p);
    if WillCut(p) { TextShortens(start, p); } else { TextStays(start, p); }
  }

  lemma {:induction false} CutTurn(t: Target, original: Bytes, text: Bytes, keep: nat)
    requires MINIMUM_TEXT_BYTES <= keep <= |original| && t.retainedCount <= |original| == t.originalCount
    requires IsCut(original, text, t.retainedCount) && CutHelps(t, original, keep)
    ensures var next := Marked(original, HeadEnd(original, keep), TailStart(original, keep));
      ReducedText(original, next, Some(original), Kept(original, keep)) && BytesCost(next) < BytesCost(text)
  {
    CutShrinks(original, text, t.retainedCount, keep);
    assert CutAt(original, Marked(original, HeadEnd(original, keep), TailStart(original, keep)), Kept(original, keep), keep);
  }

  lemma {:induction false} CutShrinks(original: Bytes, text: Bytes, retained: nat, keep: nat)
    requires keep <= |original| && IsCut(original, text, retained) && Kept(original, keep) < retained <= |original|
    requires retained == |original| ==>
      HeadEnd(original, keep) <= TailStart(original, keep)
      && BytesCost(original[HeadEnd(original, keep)..TailStart(original, keep)]) > BytesCost(OMISSION_MARKER)
    ensures BytesCost(Marked(original, HeadEnd(original, keep), TailStart(original, keep))) < BytesCost(text)
  {
    var head, tail := HeadEnd(original, keep), TailStart(original, keep);
    if retained == |original| {
      FirstCutShrinks(original, head, tail);
    } else {
      var before: nat :| CutAt(original, text, retained, before);
      SmallerCutShrinks(original, before, keep);
    }
  }

  /** Keeping fewer bytes means keeping a part of both sides. */
  lemma {:induction false} SmallerCutShrinks(original: Bytes, before: nat, keep: nat)
    requires before <= |original| && keep <= |original| && Kept(original, keep) < Kept(original, before) < |original|
    ensures BytesCost(Marked(original, HeadEnd(original, keep), TailStart(original, keep)))
          < BytesCost(Marked(original, HeadEnd(original, before), TailStart(original, before)))
  {
    if before <= keep { CutsAreMonotone(original, before, keep); }
    CutsAreMonotone(original, keep, before);
    LaterCutShrinks(original, HeadEnd(original, before), TailStart(original, before), HeadEnd(original, keep), TailStart(original, keep));
  }

  lemma {:induction false} MarkedCost(text: Bytes, head: nat, tail: nat)
    requires head <= |text| && tail <= |text|
    ensures BytesCost(Marked(text, head, tail)) == BytesCost(text[..head]) + BytesCost(OMISSION_MARKER) + BytesCost(text[tail..])
  {
    BytesCostConcat(text[..head] + OMISSION_MARKER, text[tail..]);
    BytesCostConcat(text[..head], OMISSION_MARKER);
  }

  lemma {:induction false} SplitCost(text: Bytes, i: nat, j: nat)
    requires i <= j <= |text|
    ensures BytesCost(text[..j]) == BytesCost(text[..i]) + BytesCost(text[i..j])
    ensures BytesCost(text[i..]) == BytesCost(text[i..j]) + BytesCost(text[j..])
    ensures BytesCost(text[i..j]) >= j - i
  {
    assert text[..j] == text[..i] + text[i..j];
    assert text[i..] == text[i..j] + text[j..];
    BytesCostConcat(text[..i], text[i..j]);
    BytesCostConcat(text[i..j], text[j..]);
    BytesCostAtLeastLength(text[i..j]);
  }

  /** The first cut drops text that costs more than the marker. */
  lemma {:induction false} FirstCutShrinks(text: Bytes, head: nat, tail: nat)
    requires head <= tail <= |text| && BytesCost(text[head..tail]) > BytesCost(OMISSION_MARKER)
    ensures BytesCost(Marked(text, head, tail)) < BytesCost(text)
  {
    MarkedCost(text, head, tail);
    SplitCost(text, head, tail);
    SplitCost(text, head, |text|);
    assert text[..|text|] == text && text[head..|text|] == text[head..];
  }

  /** A later cut drops more of the same text around the same marker. */
  lemma {:induction false} LaterCutShrinks(text: Bytes, oldHead: nat, oldTail: nat, head: nat, tail: nat)
    requires head <= oldHead <= |text| && oldTail <= tail <= |text| && head + |text| - tail < oldHead + |text| - oldTail
    ensures BytesCost(Marked(text, head, tail)) < BytesCost(Marked(text, oldHead, oldTail))
  {
    MarkedCost(text, head, tail);
    MarkedCost(text, oldHead, oldTail);
    SplitCost(text, head, oldHead);
    SplitCost(text, oldTail, tail);
  }

  /** Every turn keeps the shape, and either shortens the encoding or exhausts the target for good. */
  lemma {:induction false} TurnKeeps(start: Piece, p: Piece)
    requires Fresh(start) && Reduced(start, p)
    ensures var next := Turn(p);
      Reduced(start, next)
      && (if Progressed(p, next) then EncodedLength(next.value) < EncodedLength(p.value)
          else next.value == p.value && next.target.exhausted && next.target.retainedCount == p.target.retainedCount)
  {
    if !p.target.exhausted {
      if p.target.strategy.Recent? { RecentTurn(start, p); } else { TextTurn(start, p); }
    }
  }

  lemma {:induction false} StartIsReduced(start: Piece)
    requires Fresh(start)
    ensures Reduced(start, After(start, 0))
  {
    FreshIsReduced(start);
  }

  lemma {:induction false} NextIsReduced(start: Piece, turns: nat)
    requires Fresh(start) && turns > 0 && Reduced(start, After(start, turns - 1))
    ensures Reduced(start, After(start, turns))
  {
    TurnKeeps(start, After(start, turns - 1));
  }

  lemma {:induction false} AfterIsReduced(start: Piece, turns: nat)
    requires Fresh(start)
    ensures Reduced(start, After(start, turns))
  {
    if turns == 0 {
      StartIsReduced(start);
      assert After(start, 0) == start;
    } else {
      AfterIsReduced(start, turns - 1);
      NextIsReduced(start, turns);
    }
  }

  /** A recent target loses exactly one record a turn, down to one. */
  lemma {:induction false} RecentCount(start: Piece, turns: nat)
    requires Fresh(start) && start.target.strategy.Recent?
    ensures var n := start.target.originalCount;
      var kept := if turns < n then n - turns else 1;
      After(start, turns).target.retainedCount == kept
      && After(start, turns).value == Array(start.value.items[n - kept..])
  {
    AfterIsReduced(start, turns);
    if turns > 0 {
      RecentCount(start, turns - 1);
      AfterIsReduced(start, turns - 1);
      if !After(start, turns - 1).target.exhausted { RecentTurn(start, After(start, turns - 1)); }
    }
  }

  /** A target that its first turn did not change never changes later. */
  lemma {:induction false} UnchangedForever(start: Piece, turns: nat)
    requires Fresh(start) && turns >= 1 && After(start, 1).value == start.value
    ensures After(start, turns) == After(start, 1) && After(start, 1).target.exhausted
    ensures After(start, 1).target.retainedCount == start.target.originalCount
  {
    FreshIsReduced(start);
    TurnKeeps(start, start);
    assert After(start, 1) == Turn(After(start, 0)) == Turn(start);
    if turns > 1 { UnchangedForever(start, turns - 1); }
  }

  /** A target has changed after some turns exactly when its first turn changed it. */
  lemma {:induction false} FirstTurnDecides(start: Piece, turns: nat)
    requires Fresh(start) && turns >= 1
    ensures After(start, turns).target.retainedCount < start.target.originalCount
       <==> After(start, 1).target.retainedCount < start.target.originalCount
    ensures After(start, turns).target.retainedCount == start.target.originalCount ==>
      After(start, turns).target.exhausted && After(start, turns).value == start.value
  {
    var moved := After(start, 1).target.retainedCount < start.target.originalCount;
    FreshIsReduced(start);
    TurnKeeps(start, start);
    assert After(start, 1) == Turn(After(start, 0)) == Turn(start);
    StaysSettled(start, turns, moved);
  }

  /** Changed, or exhausted with the original value. */
  predicate Settled(start: Piece, p: Piece, moved: bool) {
    if moved then p.target.retainedCount < start.target.originalCount
    else p.target.retainedCount == start.target.originalCount && p.target.exhausted && p.value == start.value
  }

  lemma {:induction false} StaysSettled(start: Piece, turns: nat, moved: bool)
    requires Fresh(start) && turns >= 1 && Settled(start, After(start, 1), moved)
    ensures Settled(start, After(start, turns), moved)
  {
    if turns > 1 {
      var p := After(start, turns - 1);
      StaysSettled(start, turns - 1, moved);
      AfterIsReduced(start, turns - 1);
      TurnKeeps(start, p);
      assert After(start, turns) == Turn(p);
    }
  }

  // ----- whole characters

  /** One lead byte and its continuation bytes. */
  predicate Character(c: Bytes) {
    c != [] && !Continuation(c[0]) && forall i | 1 <= i < |c| :: Continuation(c[i])
  }

  function Spelled(characters: seq<Bytes>): Bytes {
    if characters == [] then [] else characters[0] + Spelled(characters[1..])
  }

  /** In a text made of characters, a boundary lies between two of them. */
  lemma {:induction false} BoundaryIsBetweenCharacters(characters: seq<Bytes>, i: nat) returns (k: nat)
    requires (forall c | c in characters :: Character(c)) && IsBoundary(Spelled(characters), i)
    ensures k <= |characters|
    ensures Spelled(characters)[..i] == Spelled(characters[..k]) && Spelled(characters)[i..] == Spelled(characters[k..])
  {
    var text := Spelled(characters);
    if i == 0 {
      k := 0;
      assert characters[..0] == [] && characters[0..] == characters;
    } else {
      var first, rest := characters[0], Spelled(characters[1..]);
      assert first in characters && Character(first);
      assert text == first + rest;
      assert forall j | 1 <= j < |first| :: text[j] == first[j] && Continuation(text[j]);
      if i > |first| && i < |text| { assert text[i] == rest[i - |first|]; }
      var inner := BoundaryIsBetweenCharacters(characters[1..], i - |first|);
      k := inner + 1;
      assert characters[..k] == [first] + characters[1..][..inner];
      assert characters[k..] == characters[1..][inner..];
      assert text[..i] == first + rest[..i - |first|];
      assert text[i..] == rest[i - |first|..];
    }
  }

  /** Truncating a text of whole characters keeps whole characters on both sides of the marker. */
  lemma {:induction false} CutKeepsWholeCharacters(characters: seq<Bytes>, text: Bytes, retained: nat) returns (front: nat, back: nat)
    requires (forall c | c in characters :: Character(c)) && IsCut(Spelled(characters), text, retained)
    requires retained < |Spelled(characters)|
    ensures front <= back <= |characters|
    ensures text == Spelled(characters[..front]) + OMISSION_MARKER + Spelled(characters[back..])
    ensures retained == |Spelled(characters[..front])| + |Spelled(characters[back..])|
  {
    var original := Spelled(characters);
    var keep: nat :| CutAt(original, text, retained, keep);
    front := BoundaryIsBetweenCharacters(characters, HeadEnd(original, keep));
    back := BoundaryIsBetweenCharacters(characters, TailStart(original, keep));
    if back < front {
      SpelledGrows(characters, back, front);
    }
  }

  lemma {:induction false} SpelledGrows(characters: seq<Bytes>, a: nat, b: nat)
    requires (forall c | c in characters :: Character(c)) && a < b <= |characters|
    ensures |Spelled(characters[..a])| < |Spelled(characters[..b])|
  {
    if a == 0 {
      assert characters[..b][0] == characters[0] && characters[0] in characters;
      assert characters[..0] == [];
    } else {
      assert characters[..a][1..] == characters[1..][..a - 1] && characters[..b][1..] == characters[1..][..b - 1];
      SpelledGrows(characters[1..], a - 1, b - 1);
    }
  }
}
