# Kana drill trainer — Dafny model

A model of the logic of a kana drill trainer. The program keeps a stack of
screens: a selector, where the learner picks which rows of the hiragana or
katakana catalogue to drill; a typed-answer quiz with a running score and a
"reveal" trigger (a backtick); and a writing drill that reveals a fixed
shuffled order one pair at a time. The model covers the catalogue and its
row filter, the three screens' `update` and `navigate` operations, and the
stack routing. Everything is a pure function over immutable datatypes.

Modules, one per source file or component:

- `Outcomes`: `Option`, and `Outcome`, which is a step's result or the panic that stops the program.
- `Lang` (src/lang.rs): the two catalogues, the 10-entry mask, and `list()`.
- `DrawQueue` (src/quiz.rs `update_showed`): the quiz's refill-then-pop queue.
- `Quiz` (src/quiz.rs), `Writing` (src/writing.rs), `Selector` (src/selector.rs).
- `Screens` (src/main.rs): `Page`, each screen's `navigate`, and `ScreenState::update`.
  The `navigate` functions live here because they build `Page` values, and
  `Page` holds the states of all three screens.

Modelling decisions:

- Randomness: each `shuffle` becomes a sequence supplied by the caller. The
  caller must supply a reordering of `list()`, meaning the multisets are equal.
- Panics are results, not preconditions. `todo!()`, `pop().unwrap()` on an
  empty queue, an index past the mask, and `last_mut().unwrap()` on an
  empty stack each yield `Crash(reason)`.
- The catalogues hold 46 pairs each. Rows 0-6 and 8 hold five pairs; rows 7
  ("ya") and 9 ("wa") hold three.
- Row order follows the code: the "a" row, then "sa", then "ka".
- Popping the last screen is not guarded. `ScreenState::update` pops
  unconditionally. The model does the same and proves that a reachable stack
  never loses its root: `Screens.DispatchPreservesInv`.
- The quiz's first prompt is always ぁ/"a", whatever the mask. If every
  row is unchecked, typing "a" makes the refill pop from an empty vector and
  the program panics (`Screens.EmptySelectionPanics`, `Selector.UncheckAllEmptiesList`).
- main.rs routes only selector and quiz messages. The writing
  drill's `navigate` and `update` follow the same pattern, so the model
  routes `ToWriting` the same way. No selector message opens a writing drill,
  so on a reachable stack every writing message is dropped.
- `list()` takes `&self`. Here it is a pure function, so it cannot change the set.
- The two `Back` pages of src/writing.rs and src/quiz.rs (`Page::Back`, `Page::PreviousPage`)
  are one constructor, `Back`.

## Model

| member | source | states |
|---|---|---|
| `Lang.HiraganaSet` | src/lang.rs:16-96 | hiragana kind, every mask entry true, ten rows of sizes 5,5,5,5,5,5,5,3,5,3 |
| `Lang.KatakanaSet` | src/lang.rs:98-178 | katakana kind, every mask entry true, same row sizes |
| `Lang.Catalogue` | src/selector.rs:40-43 | the fresh catalogue of a kind has that kind and a full mask |
| `Lang.Flatten` | src/lang.rs:191-197 | the concatenated included rows are exactly as long as the sum of the included row sizes |
| `Lang.List` | src/lang.rs:188-200 | `list()` has one pair per pair of an included row |
| `Lang.CollectList` | src/lang.rs:188-200 | src/lang.rs's push loop over the rows yields exactly the included rows concatenated in index order |
| `Lang.ListSplitsAtRow` | src/lang.rs:191-197 | row i appears whole and in order between the included rows before it and after it; an excluded row contributes nothing |
| `Lang.ClearRowRemovesRow` | src/lang.rs:192-196 | clearing mask entry i removes exactly row i, shrinking the list by its size if it was included |
| `Lang.FlattenMembership` | src/lang.rs:191-197 | a pair is listed if and only if some included row holds it |
| `Lang.FullListSize` | src/lang.rs:20-93 | with every row included, either catalogue lists 46 pairs |
| `Lang.NoRowsNoPairs` | src/lang.rs:191-197 | an all-false mask lists nothing |
| `Lang.SameRomanization` | src/lang.rs:21-174 | both catalogues hold the same romanization at every row and position, with a different glyph |
| `Lang.Equal` | src/lang.rs:208-212 | for sets named like a catalogue (every set the program builds), two sets are equal exactly when they are the same kind, whatever their masks |
| `Lang.EqualityIgnoresMask` | src/lang.rs:208-212 | equality looks at the name only: same-kind sets with any masks are equal, and the two kinds differ |
| `DrawQueue.Draw` | src/quiz.rs:82-93 | panics exactly when both queue and list are empty; otherwise pops the last pair of the queue, or of the shuffle if the queue was empty |
| `DrawQueue.DrawStaysInList` | src/quiz.rs:82-90 | the drawn pair and the remaining queue come from `list()` without reuse |
| `DrawQueue.DrainReverses` | src/quiz.rs:90 | draining a non-empty queue returns its pairs in reverse and never refills |
| `DrawQueue.CycleDrawsEachPairOnce` | src/quiz.rs:82-90 | from an empty queue, `|list()|` draws return every pair exactly once and leave the queue empty |
| `Quiz.ShowNext` | src/quiz.rs:78-93 | drawing the next prompt panics exactly when the queue and `list()` are both empty; otherwise it clears the input, leaves score, help flag and set alone, and pops the last pair of the queue (or of the shuffle, when the queue was empty) into the prompt |
| `Quiz.New` | src/quiz.rs:30-44 | the first prompt is ぁ/"a" whatever the mask; input and queue are empty, the score is zero, help is off, and the set is the full hiragana catalogue |
| `Quiz.Update` | src/quiz.rs:54-76 | a backtick only sets help and counts a fail; an exact answer counts a total, counts a correct one only without help, clears help and input and pops the next prompt; other input is only stored; `Back` panics |
| `Quiz.NewSatisfiesInv` | src/quiz.rs:30-44 | a fresh quiz satisfies the quiz invariant |
| `Quiz.UpdatePreservesInv` | src/quiz.rs:54-93 | `correct <= total`, the queue stays within `list()`, the prompt after an answer is from `list()`, and no counter decreases |
| `Quiz.HelpThenAnswer` | src/quiz.rs:57-70 | help then the right answer adds one total and one fail, and no correct answer |
| `Writing.New` | src/writing.rs:30-42 | the remaining and captured orders are both exactly the given shuffle of `list()`; display and trails are empty and help is off |
| `Writing.Step` | src/writing.rs:53-67 | `Next` pops the last pair, shows its romanization and appends glyph and romanization with a space to the trails; on an empty queue it clears all and restores the captured order; captured order, help flag and caption never change |
| `Writing.Update` | src/writing.rs:46-51 | `Back` panics; `Next` steps |
| `Writing.NewSatisfiesInv` | src/writing.rs:30-42 | a fresh drill satisfies the writing invariant |
| `Writing.StepPreservesInv` | src/writing.rs:53-67 | the remaining pairs stay a prefix of the captured order, and the trails are the rest of it in pop order |
| `Writing.StepsWithinRound` | src/writing.rs:63-66 | each step within a round reveals exactly one more pair |
| `Writing.RoundRestarts` | src/writing.rs:53-67 | after `|original|` steps every pair has been revealed once, in reverse captured order; one more step restores the fresh drill |
| `Selector.Default` | src/selector.rs:11-17 | the set is the full hiragana catalogue, with every row included |
| `Selector.Update` | src/selector.rs:37-47 | `Change` swaps the kind and resets the mask; `Goto` changes nothing; `Check(i, b)` sets entry i only; panics exactly for i >= 10 |
| `Selector.ChangeTwice` | src/selector.rs:40-43 | two changes return to the original kind with a full mask |
| `Selector.UncheckAllEmptiesList` | src/selector.rs:45 | unchecking all ten rows leaves an empty `list()` |
| `Screens.NavigateSelector` | src/selector.rs:26-35 | only `Goto` navigates, to a quiz on a copy of the set with zero score, no help, an empty queue and prompt ぁ/"a" |
| `Screens.NavigateQuiz` | src/quiz.rs:19-27 | only `Back` navigates, and it requests a pop |
| `Screens.NavigateWriting` | src/writing.rs:19-27 | only `Back` navigates, and it requests a pop |
| `Screens.Initial` | src/main.rs:36-42 | the initial stack is exactly one page, the default selector |
| `Screens.Dispatch` | src/main.rs:44-75 | a message for another page is dropped; a pop request pops with no update; another page is pushed over the untouched stack; otherwise only the top page is updated |
| `Screens.InitialSatisfiesInv` | src/main.rs:36-42 | the initial stack has the reachable shape and stores no pop request |
| `Screens.DispatchPreservesInv` | src/main.rs:44-75 | every dispatch keeps a selector at the bottom, at most one quiz on top, and no stored pop request; the bottom selector page is never popped, and it is untouched while a quiz is open |
| `Screens.DispatchPanics` | src/main.rs:44-75 | on a reachable stack, a dispatch panics exactly when a row index >= 10 is checked, or when an answer must refill from an empty list; in particular a quiz's `Back` never reaches its `todo!()` |
| `Screens.PushPopRoundTrip` | src/main.rs:47-73 | opening a quiz and then sending it `Back` restores the stack exactly |
| `Screens.FirstAnswerThenHelp` | src/quiz.rs:54-72 | from start-up, answering "a" scores 1/1/0 and a backtick then scores 1/1/1 |
| `Screens.EmptySelectionPanics` | src/quiz.rs:82-90 | with no row selected, the first answer panics on the empty refill |

## Left out

- All `view`, `rows_selector` and `answers` functions, widgets, fonts, colours and `to_uppercase`. They are presentation only.
- `main()`, the `iced::application` set-up and the `println!` in main.rs. They are runtime plumbing.
- The random number generator inside `shuffle`. Each shuffle is a caller-supplied reordering instead.
- main.rs's own `QuizState`, `update_showed` and `Score`. They call `KanaSet::next`, which is commented out in lang.rs. The quiz is taken from quiz.rs.
- The unused `Score` in writing.rs, and main.rs's copies of the selector types. Each behaviour is modelled once.
- `Quiz.Update`: the score counters are unbounded naturals, so the 32-bit overflow of the `i32` counters in src/quiz.rs is not modelled.
- `QuizState::default()` only calls `new()`, so it is not modelled separately.
- Unicode: glyphs and romanizations are opaque strings, and the backtick test is character membership.
