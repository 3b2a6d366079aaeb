/** The writing drill (`WritingState` in src/writing.rs): one shuffled order
    is fixed at construction; each `Next` reveals one more pair, and after
    the last one the drill clears and replays the same order. */
module Writing {
  import opened Lang
  import opened Outcomes
  import DrawQueue

  datatype WritingMessage = Next | Back

  datatype WritingState = WritingState(
    kana: string,            // romanization of the last popped pair
    remaining: seq<Pair>,    // src/writing.rs's `set`: pairs still to reveal
    original: seq<Pair>,     // src/writing.rs's `original_set`: the fixed order
    kanaTotal: string,       // glyphs revealed so far, each followed by a space
    romanTotal: string,      // romanizations revealed so far, likewise
    isHelp: bool,
    nextText: string)        // caption of the "next" button

  /** Each glyph of `ps` followed by a space, in order. */
  function GlyphTrail(ps: seq<Pair>): string {
    if ps == [] then "" else GlyphTrail(ps[..|ps| - 1]) + ps[|ps| - 1].glyph + " "
  }

  /** Each romanization of `ps` followed by a space, in order. */
  function RomanTrail(ps: seq<Pair>): string {
    if ps == [] then "" else RomanTrail(ps[..|ps| - 1]) + ps[|ps| - 1].roman + " "
  }

  /** `WritingState::new`; `shuffled` is what `shuffle` made of `list()`. */
  function New(s: KanaSet, shuffled: seq<Pair>): (w: WritingState)
    requires DrawQueue.IsShuffleOf(shuffled, List(s))
    ensures w.remaining == w.original && multiset(w.original) == multiset(List(s))
    ensures w.original == shuffled && !w.isHelp
    ensures w.kana == "" && w.kanaTotal == "" && w.romanTotal == ""
  {
    WritingState("", shuffled, shuffled, "", "", false, "Дальше")
  }

  /** `next`: pop the last remaining pair and add it to both trails; with
      nothing left, clear the display and restore the captured order. */
  function Step(w: WritingState): (r: WritingState)
    ensures r.original == w.original && r.isHelp == w.isHelp && r.nextText == w.nextText
    ensures w.remaining == [] ==>
      r.remaining == w.original && r.kana == "" && r.kanaTotal == "" && r.romanTotal == ""
    ensures w.remaining != [] ==>
      var popped := w.remaining[|w.remaining| - 1];
      && r.remaining + [popped] == w.remaining
      && r.kana == popped.roman
      && r.kanaTotal == w.kanaTotal + popped.glyph + " "
      && r.romanTotal == w.romanTotal + popped.roman + " "
  {
    if w.remaining == [] then
      w.(kana := "", romanTotal := "", kanaTotal := "", remaining := w.original)
    else
      var current := w.remaining[|w.remaining| - 1];
      w.(remaining := w.remaining[..|w.remaining| - 1],
         kanaTotal := w.kanaTotal + current.glyph + " ",
         romanTotal := w.romanTotal + current.roman + " ",
         kana := current.roman)
  }

  /** `update`: `Back` reaches a `todo!()`. */
  function Update(w: WritingState, msg: WritingMessage): (r: Outcome<WritingState>)
    ensures r.Crash? <==> msg.Back?
    ensures msg.Next? ==> r == Done(Step(w))
  {
    match msg
    case Back => Crash(Unimplemented)
    case Next => Done(Step(w))
  }

  /** The pairs popped so far this round, in pop order. */
  function Popped(w: WritingState): seq<Pair>
    requires |w.remaining| <= |w.original|
  {
    DrawQueue.Reverse(w.original[|w.remaining|..])
  }

  /** The remaining pairs are a prefix of the captured order; the trails list
      the rest of it in pop order; the shown romanization is that of the
      last pair popped, or empty at the start of a round. */
  predicate Inv(w: WritingState) {
    && |w.remaining| <= |w.original|
    && w.remaining == w.original[..|w.remaining|]
    && w.kanaTotal == GlyphTrail(Popped(w))
    && w.romanTotal == RomanTrail(Popped(w))
    && w.kana == (if |w.remaining| == |w.original| then "" else w.original[|w.remaining|].roman)
  }

  lemma NewSatisfiesInv(s: KanaSet, shuffled: seq<Pair>)
    requires DrawQueue.IsShuffleOf(shuffled, List(s))
    ensures Inv(New(s, shuffled))
  {
    assert shuffled[|shuffled|..] == [];
  }

  lemma StepPreservesInv(w: WritingState)
    requires Inv(w)
    ensures Inv(Step(w))
  {
    var r := Step(w);
    if w.remaining == [] {
      assert w.original[|w.original|..] == [];
    } else {
      var k := |w.remaining| - 1;
      var tail := w.original[k + 1..];
      assert w.original[k..] == [w.original[k]] + tail;
      assert w.original[k..][1..] == tail;
      DrawQueue.ReverseOfSnoc([], w.original[k]);
      var p := DrawQueue.Reverse(tail) + [w.original[k]];
      assert Popped(r) == p;
      assert p[..|p| - 1] == DrawQueue.Reverse(tail);
      assert w.remaining[k] == w.original[k];
    }
  }

  /** `n` consecutive `Next` messages. */
  function Steps(w: WritingState, n: nat): WritingState
    decreases n
  {
    if n == 0 then w else Steps(Step(w), n - 1)
  }

  /** Each `Next` inside a round reveals one more pair. */
  lemma {:induction false} StepsWithinRound(w: WritingState, n: nat)
    requires Inv(w) && n <= |w.remaining|
    decreases n
    ensures var r := Steps(w, n);
      Inv(r) && |r.remaining| == |w.remaining| - n
      && r.original == w.original && r.isHelp == w.isHelp && r.nextText == w.nextText
  {
    if n > 0 {
      StepPreservesInv(w);
      StepsWithinRound(Step(w), n - 1);
    }
  }

  /** From a fresh drill, `|original|` steps reveal every pair exactly once,
      in reverse of the captured order, and one more step restores the fresh
      drill: the drill is periodic with period `|original| + 1`. */
  lemma RoundRestarts(s: KanaSet, shuffled: seq<Pair>)
    requires DrawQueue.IsShuffleOf(shuffled, List(s))
    ensures var w0 := New(s, shuffled);
      var done := Steps(w0, |shuffled|);
      && done.remaining == []
      && done.kanaTotal == GlyphTrail(DrawQueue.Reverse(shuffled))
      && done.romanTotal == RomanTrail(DrawQueue.Reverse(shuffled))
      && multiset(DrawQueue.Reverse(shuffled)) == multiset(List(s))
      && Steps(w0, |shuffled| + 1) == w0
  {
    var w0 := New(s, shuffled);
    NewSatisfiesInv(s, shuffled);
    StepsWithinRound(w0, |shuffled|);
    var done := Steps(w0, |shuffled|);
    assert shuffled[0..] == shuffled;
    DrawQueue.ReverseKeepsElements(shuffled);
    StepsSplit(w0, |shuffled|);
  }

  lemma {:induction false} StepsSplit(w: WritingState, n: nat)
    ensures Steps(w, n + 1) == Step(Steps(w, n))
    decreases n
  {
    if n > 0 {
      StepsSplit(Step(w), n - 1);
    }
  }
}
