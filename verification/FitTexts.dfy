/**
 How far a truncated text is cut: for texts of one-byte characters by arithmetic on the number of
 turns, and for every text where a turn cuts and when the target is exhausted.
 */
module FitTexts {
  import opened Text
  import opened Json
  import opened FitReduction

  /** The larger of 256 and what 1024 less leaves. */
  function Budget(retained: nat): nat {
    if retained > 1280 then retained - 1024 else 256
  }

  /** `head` and `tail` are the character boundaries next to the two halves of a budget, outwards: the head
      takes the odd byte. */
  predicate Encloses(text: Bytes, keep: nat, head: nat, tail: nat) {
    IsBoundary(text, head) && IsBoundary(text, tail)
    && 2 * head >= keep && (forall i | 0 <= i < head && IsBoundary(text, i) :: 2 * i < keep)
    && 2 * (|text| - tail) + 1 >= keep && (forall i | tail < i <= |text| && IsBoundary(text, i) :: 2 * (|text| - i) + 1 < keep)
  }

  lemma {:induction false} EnclosingIsCut(text: Bytes, keep: nat, head: nat, tail: nat)
    requires keep <= |text| && Encloses(text, keep, head, tail)
    ensures head == HeadEnd(text, keep) && tail == TailStart(text, keep)
  {
    var h, t := HeadEnd(text, keep), TailStart(text, keep);
    assert 2 * ((keep + 1) / 2) >= keep && 2 * (keep / 2) + 1 >= keep;
    assert forall j | (keep + 1) / 2 <= j < h :: !IsBoundary(text, j);
    assert forall j | t < j <= |text| - keep / 2 :: !IsBoundary(text, j);
  }

  /** The cut at these boundaries drops some text, and if it is the first, text that costs more than the
      marker's 21 bytes. */
  predicate Pays(text: Bytes, retained: nat, head: nat, tail: nat) {
    head + |text| - tail < retained && head <= |text| && tail <= |text|
    && (retained == |text| ==> head <= tail && BytesCost(text[head..tail]) > 21)
  }

  /** The byte is written as itself. */
  predicate Plain(b: byte) { b >= 0x20 && b != 0x22 && b != 0x5C }

  lemma {:induction false} PlainCost(text: Bytes)
    requires forall i | 0 <= i < |text| :: Plain(text[i])
    ensures BytesCost(text) == |text|
  {
    if text != [] { PlainCost(text[1..]); }
  }

  lemma {:induction false} FramedCost(inner: Bytes)
    requires forall i | 0 <= i < |inner| :: Plain(inner[i])
    ensures BytesCost([0x0A] + inner + [0x0A]) == |inner| + 4
  {
    PlainCost(inner);
    BytesCostConcat([0x0A], inner);
    BytesCostConcat([0x0A] + inner, [0x0A]);
  }

  lemma {:induction false} MarkerInner()
    ensures forall i | 1 <= i < 18 :: Plain(OMISSION_MARKER[i])
    ensures |OMISSION_MARKER| == 19 && OMISSION_MARKER[0] == 0x0A && OMISSION_MARKER[18] == 0x0A
  {}

  lemma {:induction false} MarkerCost()
    ensures BytesCost(OMISSION_MARKER) == 21
  {
    MarkerInner();
    var marker := OMISSION_MARKER;
    assert marker == [0x0A] + marker[1..18] + [0x0A];
    FramedCost(marker[1..18]);
  }

  lemma {:induction false} HelpsExactly(t: Target, text: Bytes, head: nat, tail: nat)
    requires t.retainedCount <= |text| == t.originalCount && t.retainedCount > 256 && Budget(t.retainedCount) <= |text|
    requires Encloses(text, Budget(t.retainedCount), head, tail)
    ensures NextKeep(t.retainedCount) == Budget(t.retainedCount)
    ensures CutHelps(t, text, Budget(t.retainedCount)) <==> Pays(text, t.retainedCount, head, tail)
    ensures Kept(text, Budget(t.retainedCount)) == head + |text| - tail
  {
    MarkerCost();
    EnclosingIsCut(text, Budget(t.retainedCount), head, tail);
    NextBudget(t.retainedCount);
  }

  lemma {:induction false} NextBudget(retained: nat)
    requires retained > 256
    ensures NextKeep(retained) == Budget(retained)
  {}

  /** One turn of a text target: it cuts exactly if more than the minimum is retained and the cut pays, and it
      exhausts the target exactly if it does not cut or cuts to the minimum. */
  lemma {:induction false} TextTurnExactly(start: Piece, p: Piece, head: nat, tail: nat)
    requires Fresh(start) && start.target.strategy.Truncate? && Reduced(start, p) && !p.target.exhausted
    requires Encloses(start.value.text, Budget(p.target.retainedCount), head, tail)
    ensures var text, retained := start.value.text, p.target.retainedCount;
      var next := Turn(p);
      var cuts := retained > 256 && Pays(text, retained, head, tail);
      (next.target.exhausted <==> !cuts || retained <= 1280)
      && next.target.retainedCount == (if cuts then head + |text| - tail else retained)
      && next.value == (if cuts then String(text[..head] + OMISSION_MARKER + text[tail..]) else p.value)
  {
    ReducedIsReady(start, p);
    if p.target.retainedCount > 256 {
      HelpsExactly(p.target, start.value.text, head, tail);
      EnclosingIsCut(start.value.text, Budget(p.target.retainedCount), head, tail);
    }
  }

  /** There are such boundaries for every budget. */
  lemma {:induction false} EnclosingExists(text: Bytes, keep: nat)
    requires keep <= |text|
    ensures Encloses(text, keep, HeadEnd(text, keep), TailStart(text, keep))
  {
    var h, t := HeadEnd(text, keep), TailStart(text, keep);
    assert forall j | (keep + 1) / 2 <= j < h :: !IsBoundary(text, j);
    assert forall j | t < j <= |text| - keep / 2 :: !IsBoundary(text, j);
  }

  // ----- texts of one-byte characters

  ghost predicate OneByteCharacters(text: Bytes) {
    forall i | 0 <= i < |text| :: !Continuation(text[i])
  }

  /** Bytes of a text of length `n` that are retained after some cuts. */
  function LeftAfter(n: nat, turns: nat): nat {
    if n > 256 + 1024 * turns then n - 1024 * turns else 256
  }

  /** The head and the tail of a budget: the head takes the odd byte. */
  predicate Halves(left: nat, front: nat, back: nat) {
    front + back == left && back <= front <= back + 1
  }

  /** The text is the front and the back of the original around one marker. */
  predicate ShowsHalves(text: Bytes, v: Json, front: nat, back: nat) {
    front <= |text| && back <= |text| && v == String(text[..front] + OMISSION_MARKER + text[|text| - back..])
  }

  lemma {:induction false} OneByteEncloses(text: Bytes, keep: nat, front: nat, back: nat)
    requires OneByteCharacters(text) && keep <= |text| && Halves(keep, front, back)
    ensures Encloses(text, keep, front, |text| - back)
  {
    assert forall i | 0 <= i <= |text| :: IsBoundary(text, i);
  }

  lemma {:induction false} OneByteTurn(start: Piece, p: Piece, left: nat, front: nat, back: nat)
    requires Fresh(start) && start.target.strategy.Truncate? && OneByteCharacters(start.value.text)
    requires Reduced(start, p) && !p.target.exhausted && p.target.retainedCount > 256
    requires left == Budget(p.target.retainedCount) && Halves(left, front, back)
    requires var text := start.value.text;
      front + back <= |text| && (p.target.retainedCount == |text| ==> BytesCost(text[front..|text| - back]) > 21)
    ensures var next := Turn(p);
      next.target.retainedCount == left && ShowsHalves(start.value.text, next.value, front, back)
      && (next.target.exhausted <==> left == 256)
  {
    OneByteEncloses(start.value.text, left, front, back);
    TextTurnExactly(start, p, front, |start.value.text| - back);
  }

  lemma {:induction false} LeftNext(n: nat, turns: nat)
    requires n > 256 && turns > 0
    ensures LeftAfter(n, 0) == n
    ensures LeftAfter(n, turns) == if LeftAfter(n, turns - 1) == 256 then 256 else Budget(LeftAfter(n, turns - 1))
    ensures LeftAfter(n, turns) < n
  {}

  /** A text target of which `left` bytes are retained. */
  ghost predicate Shows(start: Piece, p: Piece, left: nat, front: nat, back: nat)
    requires start.value.String?
  {
    p.target.retainedCount == left && ShowsHalves(start.value.text, p.value, front, back) && (p.target.exhausted <==> left == 256)
  }

  lemma {:induction false} HalvesAreUnique(left: nat, front: nat, back: nat, otherFront: nat, otherBack: nat)
    requires Halves(left, front, back) && Halves(left, otherFront, otherBack)
    ensures front == otherFront && back == otherBack
  {}

  lemma {:induction false} FirstTurn(start: Piece, front: nat, back: nat)
    requires Fresh(start) && start.target.strategy.Truncate? && OneByteCharacters(start.value.text)
    requires Halves(LeftAfter(|start.value.text|, 1), front, back)
    requires front + back <= |start.value.text| && BytesCost(start.value.text[front..|start.value.text| - back]) > 21
    ensures Shows(start, After(start, 1), LeftAfter(|start.value.text|, 1), front, back)
  {
    LeftNext(|start.value.text|, 1);
    AfterIsReduced(start, 0);
    assert After(start, 0) == start && After(start, 1) == Turn(start);
    OneByteTurn(start, start, LeftAfter(|start.value.text|, 1), front, back);
  }

  lemma {:induction false} LaterTurn(start: Piece, p: Piece, less: nat, front: nat, back: nat, left: nat, nextFront: nat, nextBack: nat)
    requires Fresh(start) && start.target.strategy.Truncate? && OneByteCharacters(start.value.text) && Reduced(start, p)
    requires Shows(start, p, less, front, back) && Halves(less, front, back) && less < |start.value.text|
    requires left == (if less == 256 then 256 else Budget(less)) && less >= 256 && Halves(left, nextFront, nextBack)
    ensures Shows(start, Turn(p), left, nextFront, nextBack)
  {
    if less == 256 {
      HalvesAreUnique(less, front, back, nextFront, nextBack);
    } else {
      OneByteTurn(start, p, left, nextFront, nextBack);
    }
  }

  /** A text whose first cut pays loses 1024 bytes a turn, down to 256: the middle, around one marker, with
      the odd byte on the left; and it is exhausted when 256 are left. */
  lemma {:induction false} OneByteTexts(start: Piece, turns: nat, front: nat, back: nat, firstFront: nat, firstBack: nat)
    requires Fresh(start) && start.target.strategy.Truncate? && OneByteCharacters(start.value.text) && turns > 0
    requires Halves(LeftAfter(|start.value.text|, turns), front, back)
    requires Halves(LeftAfter(|start.value.text|, 1), firstFront, firstBack)
    requires BytesCost(start.value.text[firstFront..|start.value.text| - firstBack]) > 21
    ensures Shows(start, After(start, turns), LeftAfter(|start.value.text|, turns), front, back)
  {
    var n := |start.value.text|;
    LeftNext(n, turns);
    if turns == 1 {
      HalvesAreUnique(LeftAfter(n, 1), front, back, firstFront, firstBack);
      FirstTurn(start, firstFront, firstBack);
    } else {
      var lessFront, lessBack := Halved(LeftAfter(n, turns - 1));
      LeftNext(n, turns - 1);
      OneByteTexts(start, turns - 1, lessFront, lessBack, firstFront, firstBack);
      NextText(start, turns, lessFront, lessBack, front, back);
    }
  }

  lemma {:induction false} Halved(left: nat) returns (front: nat, back: nat)
    ensures Halves(left, front, back)
  {
    front, back := left - left / 2, left / 2;
  }

  lemma {:induction false} NextText(start: Piece, turns: nat, front: nat, back: nat, nextFront: nat, nextBack: nat)
    requires Fresh(start) && start.target.strategy.Truncate? && OneByteCharacters(start.value.text) && turns > 1
    requires Shows(start, After(start, turns - 1), LeftAfter(|start.value.text|, turns - 1), front, back)
    requires Halves(LeftAfter(|start.value.text|, turns - 1), front, back)
    requires Halves(LeftAfter(|start.value.text|, turns), nextFront, nextBack)
    ensures Shows(start, After(start, turns), LeftAfter(|start.value.text|, turns), nextFront, nextBack)
  {
    var n := |start.value.text|;
    LeftNext(n, turns);
    LeftNext(n, turns - 1);
    AfterIsReduced(start, turns - 1);
    LaterTurn(start, After(start, turns - 1), LeftAfter(n, turns - 1), front, back, LeftAfter(n, turns), nextFront, nextBack);
  }
}
