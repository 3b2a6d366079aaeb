/** The screen stack (`Page` and `ScreenState` in src/main.rs) and the
    `navigate` decision of each screen, which produces pages. */
module Screens {
  import opened Lang
  import opened Outcomes
  import DrawQueue
  import Quiz
  import Writing
  import Selector

  /** A screen on the stack, or the request to pop one (`Back`). */
  datatype Page =
    | SelectorPage(selector: Selector.SelectorState)
    | QuizPage(quiz: Quiz.QuizState)
    | WritingPage(writing: Writing.WritingState)
    | Back

  /** `RootMessage`: a screen's message, tagged with the screen it is for. */
  datatype RootMessage =
    | ToSelector(selectorMsg: Selector.SelectorMessage)
    | ToQuiz(quizMsg: Quiz.QuizMessage)
    | ToWriting(writingMsg: Writing.WritingMessage)

  /** The selector's `navigate`: `Goto` opens a fresh quiz on a copy of the
      selected set; every other message stays on the selector. */
  function NavigateSelector(s: Selector.SelectorState, msg: Selector.SelectorMessage): (r: Option<Page>)
    ensures r.Some? <==> msg.Goto?
    ensures r.Some? ==>
      && r.value.QuizPage?
      && var q := r.value.quiz;
      && q.kanaSet == s.kanaSet
      && q.score == Quiz.Score(0, 0, 0) && !q.isHelp && q.queue == [] && q.currentRoman == ""
      && q.kana == "ぁ" && q.correctRoman == "a"
  {
    if msg.Goto? then Some(QuizPage(Quiz.New().(kanaSet := s.kanaSet))) else None
  }

  /** The quiz's `navigate`: only `Back` navigates, and it pops. */
  function NavigateQuiz(q: Quiz.QuizState, msg: Quiz.QuizMessage): (r: Option<Page>)
    ensures r.Some? <==> msg.Back?
    ensures r.Some? ==> r.value.Back?
  {
    if msg.Back? then Some(Back) else None
  }

  /** The writing drill's `navigate`: only `Back` navigates, and it pops. */
  function NavigateWriting(w: Writing.WritingState, msg: Writing.WritingMessage): (r: Option<Page>)
    ensures r.Some? <==> msg.Back?
    ensures r.Some? ==> r.value.Back?
  {
    if msg.Back? then Some(Back) else None
  }

  function Top(stack: seq<Page>): Page
    requires |stack| > 0
  {
    stack[|stack| - 1]
  }

  /** The message is tagged for this page. */
  predicate Matches(p: Page, msg: RootMessage) {
    || (msg.ToSelector? && p.SelectorPage?)
    || (msg.ToQuiz? && p.QuizPage?)
    || (msg.ToWriting? && p.WritingPage?)
  }

  /** The shuffle handed to a dispatch fits the quiz on top, if any. */
  predicate ShuffleFits(stack: seq<Page>, shuffled: seq<Pair>) {
    |stack| > 0 && Top(stack).QuizPage? ==>
      DrawQueue.IsShuffleOf(shuffled, List(Top(stack).quiz.kanaSet))
  }

  /** The page's `navigate` answer to a message tagged for it. */
  function Navigate(p: Page, msg: RootMessage): Option<Page>
    requires Matches(p, msg)
  {
    match msg
    case ToSelector(m) => NavigateSelector(p.selector, m)
    case ToQuiz(m) => NavigateQuiz(p.quiz, m)
    case ToWriting(m) => NavigateWriting(p.writing, m)
  }

  /** The page's `update` applied to a message tagged for it. */
  function UpdatePage(p: Page, msg: RootMessage, shuffled: seq<Pair>): Outcome<Page>
    requires Matches(p, msg)
    requires p.QuizPage? ==> DrawQueue.IsShuffleOf(shuffled, List(p.quiz.kanaSet))
  {
    match msg
    case ToSelector(m) =>
      (match Selector.Update(p.selector, m)
       case Crash(why) => Crash(why)
       case Done(s) => Done(SelectorPage(s)))
    case ToQuiz(m) =>
      (match Quiz.Update(p.quiz, m, shuffled)
       case Crash(why) => Crash(why)
       case Done(q) => Done(QuizPage(q)))
    case ToWriting(m) =>
      (match Writing.Update(p.writing, m)
       case Crash(why) => Crash(why)
       case Done(w) => Done(WritingPage(w)))
  }

  /** `ScreenState::default()`: the selector alone. */
  function Initial(): (stack: seq<Page>)
    ensures |stack| == 1 && stack[0].SelectorPage?
    ensures stack[0].selector == Selector.Default()
    ensures stack[0].selector.kanaSet.charsType == Hiragana
    ensures stack[0].selector.kanaSet.includeMap == AllIncluded
  {
    [SelectorPage(Selector.Default())]
  }

  /** `ScreenState::update`: a message for another page than the top one is
      dropped; otherwise the top page's `navigate` is asked first, and only
      when it declines does the page's `update` run. */
  function Dispatch(stack: seq<Page>, msg: RootMessage, shuffled: seq<Pair>): (r: Outcome<seq<Page>>)
    requires ShuffleFits(stack, shuffled)
    ensures |stack| == 0 ==> r == Crash(EmptyStack)
    ensures |stack| > 0 && !Matches(Top(stack), msg) ==> r == Done(stack)
    // a pop request removes the top page and runs no update
    ensures |stack| > 0 && Matches(Top(stack), msg) && Navigate(Top(stack), msg) == Some(Back) ==>
      r == Done(stack[..|stack| - 1])
    // any other page is pushed; the pages below, the old top included, are untouched
    ensures (|stack| > 0 && Matches(Top(stack), msg) && Navigate(Top(stack), msg).Some?
             && !Navigate(Top(stack), msg).value.Back?) ==>
      r.Done? && |r.value| == |stack| + 1 && r.value[..|stack|] == stack
      && Top(r.value) == Navigate(Top(stack), msg).value
    // otherwise only the top page changes
    ensures |stack| > 0 && Matches(Top(stack), msg) && Navigate(Top(stack), msg).None? ==>
      && (r.Crash? <==> UpdatePage(Top(stack), msg, shuffled).Crash?)
      && (r.Done? ==> |r.value| == |stack| && r.value[..|stack| - 1] == stack[..|stack| - 1]
                      && Top(r.value) == UpdatePage(Top(stack), msg, shuffled).value)
  {
    if |stack| == 0 then Crash(EmptyStack)
    else
      var top := Top(stack);
      if !Matches(top, msg) then Done(stack)
      else
        match Navigate(top, msg)
        case Some(page) =>
          if page.Back? then Done(stack[..|stack| - 1]) else Done(stack + [page])
        case None =>
          match UpdatePage(top, msg, shuffled)
          case Crash(why) => Crash(why)
          case Done(p) => Done(stack[..|stack| - 1] + [p])
  }

  /** The shape of every reachable stack: a selector at the bottom, at most
      one quiz above it, never a stored pop request, and the quiz keeps its
      own invariant. */
  predicate Inv(stack: seq<Page>) {
    && (|stack| == 1 || |stack| == 2)
    && stack[0].SelectorPage?
    && (|stack| == 2 ==> stack[1].QuizPage? && Quiz.Inv(stack[1].quiz))
  }

  lemma InitialSatisfiesInv()
    ensures Inv(Initial())
    ensures forall i | 0 <= i < |Initial()| :: !Initial()[i].Back?
  {
  }

  /** Every dispatch that does not panic keeps the stack shape: the selector
      only ever pushes a quiz, and the quiz only ever pops itself. */
  lemma DispatchPreservesInv(stack: seq<Page>, msg: RootMessage, shuffled: seq<Pair>)
    requires Inv(stack) && ShuffleFits(stack, shuffled)
    ensures var r := Dispatch(stack, msg, shuffled);
      r.Done? ==> Inv(r.value) && forall i | 0 <= i < |r.value| :: !r.value[i].Back?
    ensures var r := Dispatch(stack, msg, shuffled);
      r.Done? ==> |r.value| >= 1 && r.value[0].SelectorPage?
                  && (|stack| == 2 ==> r.value[0] == stack[0])
  {
    var r := Dispatch(stack, msg, shuffled);
    var top := Top(stack);
    if r.Done? && Matches(top, msg) {
      match msg
      case ToSelector(m) =>
        if m.Goto? {
          Quiz.NewSatisfiesInv(top.selector.kanaSet);
        }
      case ToQuiz(m) =>
        if m.ContentChanged? {
          Quiz.UpdatePreservesInv(top.quiz, m, shuffled);
        }
      case ToWriting(m) =>
    }
  }

  /** On a reachable stack, a dispatch panics exactly when a row past the
      tenth is checked, or when an answer must refill the quiz's queue from
      an empty `list()`. In particular a quiz's `Back` never reaches its
      `todo!()`. */
  lemma DispatchPanics(stack: seq<Page>, msg: RootMessage, shuffled: seq<Pair>)
    requires Inv(stack) && ShuffleFits(stack, shuffled)
    ensures Dispatch(stack, msg, shuffled).Crash? <==>
      || (|stack| == 1 && msg.ToSelector? && msg.selectorMsg.Check? && msg.selectorMsg.row >= RowCount)
      || (|stack| == 2 && msg.ToQuiz? && Quiz.IsAnswer(stack[1].quiz, msg.quizMsg)
          && stack[1].quiz.queue == [] && List(stack[1].quiz.kanaSet) == [])
  {
  }

  /** Opening a quiz and leaving it with `Back` restores the stack exactly. */
  lemma PushPopRoundTrip(stack: seq<Page>, shuffled: seq<Pair>, reshuffled: seq<Pair>)
    requires Inv(stack) && |stack| == 1
    requires DrawQueue.IsShuffleOf(reshuffled, List(stack[0].selector.kanaSet))
    ensures var pushed := Dispatch(stack, ToSelector(Selector.Goto), shuffled);
      && pushed.Done? && |pushed.value| == 2 && pushed.value[0] == stack[0]
      && ShuffleFits(pushed.value, reshuffled)
      && Dispatch(pushed.value, ToQuiz(Quiz.Back), reshuffled) == Done(stack)
  {
    var pushed := Dispatch(stack, ToSelector(Selector.Goto), shuffled);
    assert pushed.value[..1] == stack;
  }

  /** From start-up: open the quiz, type the fixed first answer "a", then ask
      for help: one correct answer, one fail. */
  lemma FirstAnswerThenHelp(shuffled: seq<Pair>)
    requires DrawQueue.IsShuffleOf(shuffled, List(HiraganaSet()))
    ensures var s1 := Dispatch(Initial(), ToSelector(Selector.Goto), []);
      && s1.Done? && ShuffleFits(s1.value, shuffled)
      && var s2 := Dispatch(s1.value, ToQuiz(Quiz.ContentChanged("a")), shuffled);
      && s2.Done? && |s2.value| == 2 && s2.value[1].quiz.score == Quiz.Score(1, 1, 0)
      && ShuffleFits(s2.value, shuffled)
      && var s3 := Dispatch(s2.value, ToQuiz(Quiz.ContentChanged("`")), shuffled);
      && s3.Done? && s3.value[1].quiz.score == Quiz.Score(1, 1, 1) && s3.value[1].quiz.isHelp
  {
    FullListSize(HiraganaSet());
    var s1 := Dispatch(Initial(), ToSelector(Selector.Goto), []);
    assert s1.value[1].quiz.kanaSet == HiraganaSet();
    assert Quiz.IsAnswer(s1.value[1].quiz, Quiz.ContentChanged("a"));
  }

  /** With every row unchecked, the first answer to the fixed opening prompt
      panics: the refill finds `list()` empty. */
  lemma EmptySelectionPanics(s: Selector.SelectorState, shuffled: seq<Pair>)
    requires List(s.kanaSet) == []
    ensures var s1 := Dispatch([SelectorPage(s)], ToSelector(Selector.Goto), shuffled);
      && s1.Done? && ShuffleFits(s1.value, [])
      && Dispatch(s1.value, ToQuiz(Quiz.ContentChanged("a")), []) == Crash(PopOnEmpty)
  {
    var s1 := Dispatch([SelectorPage(s)], ToSelector(Selector.Goto), shuffled);
    assert Quiz.IsAnswer(s1.value[1].quiz, Quiz.ContentChanged("a"));
  }
}
