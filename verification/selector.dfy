/** The row-selection screen (`SelectorState` in src/selector.rs). */
module Selector {
  import opened Lang
  import opened Outcomes

  datatype SelectorState = SelectorState(kanaSet: KanaSet)

  /** `Check(row, included)` carries src/selector.rs's `usize` row index. */
  datatype SelectorMessage = Change | Goto | Check(row: nat, included: bool)

  /** `Default`: the hiragana catalogue with every row included. */
  function Default(): (s: SelectorState)
    ensures s.kanaSet == HiraganaSet()
    ensures s.kanaSet.charsType == Hiragana && s.kanaSet.includeMap == AllIncluded
  {
    SelectorState(HiraganaSet())
  }

  function Other(t: KanaType): KanaType {
    match t
    case Hiragana => Katakana
    case Katakana => Hiragana
  }

  /** `update`. Checking a row past the tenth indexes past the end of
      `include_map` and panics. */
  function Update(s: SelectorState, msg: SelectorMessage): (r: Outcome<SelectorState>)
    ensures r.Crash? <==> msg.Check? && msg.row >= RowCount
    ensures r.Crash? ==> r.reason == IndexOutOfBounds
    // Change swaps the kind and discards the mask
    ensures msg.Change? ==>
      r.Done? && r.value.kanaSet == Catalogue(Other(s.kanaSet.charsType))
      && r.value.kanaSet.charsType != s.kanaSet.charsType
      && r.value.kanaSet.includeMap == AllIncluded
    ensures msg.Goto? ==> r == Done(s)
    // Check sets one mask entry and nothing else
    ensures msg.Check? && r.Done? ==>
      var after := r.value.kanaSet;
      && after.includeMap[msg.row] == msg.included
      && (forall k | 0 <= k < RowCount && k != msg.row :: after.includeMap[k] == s.kanaSet.includeMap[k])
      && after.name == s.kanaSet.name && after.charsType == s.kanaSet.charsType
      && after.dictionary == s.kanaSet.dictionary
  {
    match msg
    case Change =>
      (match s.kanaSet.charsType
       case Katakana => Done(SelectorState(HiraganaSet()))
       case Hiragana => Done(SelectorState(KatakanaSet())))
    case Goto => Done(s)
    case Check(i, b) =>
      if i < RowCount then Done(s.(kanaSet := s.kanaSet.(includeMap := s.kanaSet.includeMap[i := b])))
      else Crash(IndexOutOfBounds)
  }

  /** Two `Change` messages return to the original kind with every row
      included, whatever the mask was. */
  lemma ChangeTwice(s: SelectorState)
    ensures var once := Update(s, Change);
      && once.Done?
      && var twice := Update(once.value, Change);
      && twice == Done(SelectorState(Catalogue(s.kanaSet.charsType)))
      && twice.value.kanaSet.includeMap == AllIncluded
  {
  }

  /** Unchecking every row, one `Check` at a time, leaves an empty `list()`. */
  lemma UncheckAllEmptiesList(s: SelectorState)
    ensures var r := UncheckFrom(s, 0);
      r.Done? && List(r.value.kanaSet) == []
  {
    UncheckFromClears(s, 0);
    var r := UncheckFrom(s, 0);
    NoRowsNoPairs(r.value.kanaSet.dictionary, r.value.kanaSet.includeMap);
  }

  /** `Check(k, false)` for every row `k` from `i` up to the last. */
  function UncheckFrom(s: SelectorState, i: nat): Outcome<SelectorState>
    requires i <= RowCount
    decreases RowCount - i
  {
    if i == RowCount then Done(s)
    else
      match Update(s, Check(i, false))
      case Crash(why) => Crash(why)
      case Done(next) => UncheckFrom(next, i + 1)
  }

  lemma {:induction false} UncheckFromClears(s: SelectorState, i: nat)
    requires i <= RowCount
    requires forall k | 0 <= k < i :: !s.kanaSet.includeMap[k]
    ensures var r := UncheckFrom(s, i);
      r.Done? && forall k | 0 <= k < RowCount :: !r.value.kanaSet.includeMap[k]
    decreases RowCount - i
  {
    if i < RowCount {
      UncheckFromClears(Update(s, Check(i, false)).value, i + 1);
    }
  }
}
