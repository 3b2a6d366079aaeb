/** The typed-answer quiz (`QuizState` in src/quiz.rs). */
module Quiz {
  import opened Lang
  import opened Outcomes
  import DrawQueue

  /** Running score; src/quiz.rs's `i32` counters are taken as unbounded. */
  datatype Score = Score(total: nat, correct: nat, fail: nat)

  datatype QuizMessage = ContentChanged(content: string) | Back

  datatype QuizState = QuizState(
    kana: string,           // glyph shown to the learner
    currentRoman: string,   // the input buffer
    correctRoman: string,   // romanization of the shown glyph
    kanaSet: KanaSet,
    queue: seq<Pair>,       // pairs still to draw in this cycle
    score: Score,
    isHelp: bool)           // the answer was revealed for this prompt

  /** Typing this character asks for the answer. */
  const HelpTrigger: char := '`'

  /** `QuizState::new()`: the first prompt is fixed to ぁ/"a" whatever the
      set; the queue starts empty, so the first draw refills it. */
  function New(): (q: QuizState)
    ensures q.kana == "ぁ" && q.correctRoman == "a"
    ensures q.currentRoman == "" && q.queue == []
    ensures q.score == Score(0, 0, 0) && !q.isHelp
    ensures q.kanaSet == HiraganaSet()
  {
    QuizState("ぁ", "", "a", HiraganaSet(), [], Score(0, 0, 0), false)
  }

  predicate IsHelpRequest(msg: QuizMessage) {
    msg.ContentChanged? && HelpTrigger in msg.content
  }

  /** The input is the exact answer to the shown prompt. */
  predicate IsAnswer(q: QuizState, msg: QuizMessage) {
    msg.ContentChanged? && HelpTrigger !in msg.content && msg.content == q.correctRoman
  }

  /** `update_showed`: clear the input and draw the next prompt. */
  function ShowNext(q: QuizState, shuffled: seq<Pair>): (r: Outcome<QuizState>)
    requires DrawQueue.IsShuffleOf(shuffled, List(q.kanaSet))
    ensures r.Crash? <==> q.queue == [] && List(q.kanaSet) == []
    ensures r.Done? ==>
      && r.value.currentRoman == "" && r.value.score == q.score
      && r.value.isHelp == q.isHelp && r.value.kanaSet == q.kanaSet
      && r.value.queue + [Pair(r.value.kana, r.value.correctRoman)] == (if q.queue == [] then shuffled else q.queue)
  {
    match DrawQueue.Draw(q.queue, List(q.kanaSet), shuffled)
    case Crash(why) => Crash(why)
    case Done(d) =>
      Done(q.(currentRoman := "", queue := d.rest, kana := d.pair.glyph, correctRoman := d.pair.roman))
  }

  /** `update`. `shuffled` is what `shuffle` would make of `set.list()`; it
      is used only when an answer empties the queue. */
  function Update(q: QuizState, msg: QuizMessage, shuffled: seq<Pair>): (r: Outcome<QuizState>)
    requires DrawQueue.IsShuffleOf(shuffled, List(q.kanaSet))
    // panics: `todo!()` on Back, and popping an empty refill
    ensures r.Crash? <==> msg.Back? || (IsAnswer(q, msg) && q.queue == [] && List(q.kanaSet) == [])
    ensures msg.Back? ==> r == Crash(Unimplemented)
    // the score: total counts answers, correct counts unaided answers, fail counts help requests
    ensures r.Done? ==> r.value.score.total == q.score.total + (if IsAnswer(q, msg) then 1 else 0)
    ensures r.Done? ==> r.value.score.correct == q.score.correct + (if IsAnswer(q, msg) && !q.isHelp then 1 else 0)
    ensures r.Done? ==> r.value.score.fail == q.score.fail + (if IsHelpRequest(msg) then 1 else 0)
    ensures r.Done? ==> r.value.kanaSet == q.kanaSet
    // a help request only raises the flag; prompt, input and queue stay
    ensures IsHelpRequest(msg) ==>
      r.Done? && r.value.isHelp && r.value.kana == q.kana && r.value.correctRoman == q.correctRoman
      && r.value.currentRoman == q.currentRoman && r.value.queue == q.queue
    // an answer clears flag and input and pops the next prompt from the queue, refilled if empty
    ensures IsAnswer(q, msg) && r.Done? ==>
      && !r.value.isHelp && r.value.currentRoman == ""
      && r.value.queue + [Pair(r.value.kana, r.value.correctRoman)] == (if q.queue == [] then shuffled else q.queue)
    // any other input is only stored
    ensures msg.ContentChanged? && !IsHelpRequest(msg) && !IsAnswer(q, msg) ==>
      r == Done(q.(currentRoman := msg.content))
  {
    match msg
    case Back => Crash(Unimplemented)
    case ContentChanged(content) =>
      if HelpTrigger in content then
        Done(q.(isHelp := true, score := q.score.(fail := q.score.fail + 1)))
      else
        var typed := q.(currentRoman := content);
        if typed.correctRoman == typed.currentRoman then
          var scored := typed.(
            score := typed.score.(correct := typed.score.correct + (if !typed.isHelp then 1 else 0),
                                  total := typed.score.total + 1),
            isHelp := false);
          ShowNext(scored, shuffled)
        else
          Done(typed)
  }

  /** What holds of every quiz the program can reach: no more correct
      answers than answers, the queue drawn from `list()` without reuse, and
      once an answer was given, the prompt is a pair of `list()`. */
  predicate Inv(q: QuizState) {
    && q.score.correct <= q.score.total
    && multiset(q.queue) <= multiset(List(q.kanaSet))
    && (q.score.total > 0 ==> Pair(q.kana, q.correctRoman) in List(q.kanaSet))
  }

  /** Score counters never decrease. */
  predicate ScoreGrew(before: Score, after: Score) {
    before.total <= after.total && before.correct <= after.correct && before.fail <= after.fail
  }

  /** A fresh quiz (with any set) satisfies the invariant. */
  lemma NewSatisfiesInv(s: KanaSet)
    ensures Inv(New().(kanaSet := s))
  {
  }

  /** Every step keeps the invariant, and the score only grows. */
  lemma UpdatePreservesInv(q: QuizState, msg: QuizMessage, shuffled: seq<Pair>)
    requires DrawQueue.IsShuffleOf(shuffled, List(q.kanaSet))
    requires Inv(q)
    ensures var r := Update(q, msg, shuffled);
      r.Done? ==> Inv(r.value) && ScoreGrew(q.score, r.value.score)
  {
    var r := Update(q, msg, shuffled);
    if r.Done? && IsAnswer(q, msg) {
      DrawQueue.DrawStaysInList(q.queue, List(q.kanaSet), shuffled);
      var d := DrawQueue.Draw(q.queue, List(q.kanaSet), shuffled);
      assert d.Done?;
      assert r.value.queue == d.value.rest;
      assert Pair(r.value.kana, r.value.correctRoman) == d.value.pair;
    }
  }

  /** Asking for help and then answering scores a total but not a correct
      answer, and counts one fail. */
  lemma HelpThenAnswer(q: QuizState, hint: string, shuffled: seq<Pair>)
    requires DrawQueue.IsShuffleOf(shuffled, List(q.kanaSet))
    requires HelpTrigger in hint && HelpTrigger !in q.correctRoman
    requires q.queue != [] || List(q.kanaSet) != []
    ensures var helped := Update(q, ContentChanged(hint), shuffled);
      && helped.Done?
      && var answered := Update(helped.value, ContentChanged(q.correctRoman), shuffled);
      && answered.Done?
      && answered.value.score == Score(q.score.total + 1, q.score.correct, q.score.fail + 1)
      && !answered.value.isHelp
  {
  }
}
