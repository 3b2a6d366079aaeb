/** The two fixed kana catalogues and the per-row inclusion mask
    (`KanaSet` in src/lang.rs). Glyphs and romanizations are opaque strings. */
module Lang {

  /** Rows in every catalogue, and entries in the inclusion mask. */
  const RowCount: nat := 10

  /** A catalogue entry: a kana glyph and its romanization. */
  datatype Pair = Pair(glyph: string, roman: string)

  datatype KanaType = Hiragana | Katakana

  /** A catalogue: always exactly `RowCount` rows of pairs. */
  type Dictionary = d: seq<seq<Pair>> | |d| == RowCount
    witness [[], [], [], [], [], [], [], [], [], []]

  /** The inclusion mask, src/lang.rs's `[bool; 10]`. */
  type Mask = m: seq<bool> | |m| == RowCount
    witness [true, true, true, true, true, true, true, true, true, true]

  const AllIncluded: Mask := [true, true, true, true, true, true, true, true, true, true]

  datatype KanaSet = KanaSet(name: string, charsType: KanaType, dictionary: Dictionary, includeMap: Mask)

  /** Size of row `i` in both shipped catalogues: the "ya" and "wa" rows
      (indices 7 and 9) hold three pairs, every other row five. */
  function StandardRowSize(i: nat): nat {
    if i == 7 || i == 9 then 3 else 5
  }

  /** The catalogue shape both constructors produce. */
  predicate IsStandardShape(d: Dictionary) {
    forall i | 0 <= i < RowCount :: |d[i]| == StandardRowSize(i)
  }

  /** The hiragana rows, in the order src/lang.rs lists them. */
  const HiraganaA: seq<Pair> := [Pair("ぁ", "a"), Pair("ぃ", "i"), Pair("ぅ", "u"), Pair("ぇ", "e"), Pair("ぉ", "o")]
  const HiraganaSa: seq<Pair> := [Pair("さ", "sa"), Pair("し", "shi"), Pair("す", "su"), Pair("せ", "se"), Pair("そ", "so")]
  const HiraganaKa: seq<Pair> := [Pair("か", "ka"), Pair("き", "ki"), Pair("く", "ku"), Pair("け", "ke"), Pair("こ", "ko")]
  const HiraganaTa: seq<Pair> := [Pair("た", "ta"), Pair("ち", "chi"), Pair("つ", "tsu"), Pair("て", "te"), Pair("と", "to")]
  const HiraganaNa: seq<Pair> := [Pair("な", "na"), Pair("に", "ni"), Pair("ぬ", "nu"), Pair("ね", "ne"), Pair("の", "no")]
  const HiraganaHa: seq<Pair> := [Pair("は", "ha"), Pair("ひ", "hi"), Pair("ふ", "fu"), Pair("へ", "he"), Pair("ほ", "ho")]
  const HiraganaMa: seq<Pair> := [Pair("ま", "ma"), Pair("み", "mi"), Pair("む", "mu"), Pair("め", "me"), Pair("も", "mo")]
  const HiraganaYa: seq<Pair> := [Pair("や", "ya"), Pair("ゆ", "yu"), Pair("よ", "yo")]
  const HiraganaRa: seq<Pair> := [Pair("ら", "ra"), Pair("り", "ri"), Pair("る", "ru"), Pair("れ", "re"), Pair("ろ", "ro")]
  const HiraganaWa: seq<Pair> := [Pair("わ", "wa"), Pair("を", "wo"), Pair("ん", "n")]

  function HiraganaSet(): (s: KanaSet)
    ensures s.charsType == Hiragana
    ensures s.includeMap == AllIncluded
    ensures IsStandardShape(s.dictionary)
  {
    KanaSet("Хирагана", Hiragana,
      [HiraganaA, HiraganaSa, HiraganaKa, HiraganaTa, HiraganaNa, HiraganaHa, HiraganaMa, HiraganaYa, HiraganaRa, HiraganaWa],
      AllIncluded)
  }

  /** The katakana rows, in the order src/lang.rs lists them. */
  const KatakanaA: seq<Pair> := [Pair("ァ", "a"), Pair("ィ", "i"), Pair("ゥ", "u"), Pair("ェ", "e"), Pair("ォ", "o")]
  const KatakanaSa: seq<Pair> := [Pair("サ", "sa"), Pair("シ", "shi"), Pair("ス", "su"), Pair("セ", "se"), Pair("ソ", "so")]
  const KatakanaKa: seq<Pair> := [Pair("カ", "ka"), Pair("キ", "ki"), Pair("ク", "ku"), Pair("ケ", "ke"), Pair("コ", "ko")]
  const KatakanaTa: seq<Pair> := [Pair("タ", "ta"), Pair("チ", "chi"), Pair("ツ", "tsu"), Pair("テ", "te"), Pair("ト", "to")]
  const KatakanaNa: seq<Pair> := [Pair("ナ", "na"), Pair("ニ", "ni"), Pair("ヌ", "nu"), Pair("ネ", "ne"), Pair("ノ", "no")]
  const KatakanaHa: seq<Pair> := [Pair("ハ", "ha"), Pair("ヒ", "hi"), Pair("フ", "fu"), Pair("ヘ", "he"), Pair("ホ", "ho")]
  const KatakanaMa: seq<Pair> := [Pair("マ", "ma"), Pair("ミ", "mi"), Pair("ム", "mu"), Pair("メ", "me"), Pair("モ", "mo")]
  const KatakanaYa: seq<Pair> := [Pair("ヤ", "ya"), Pair("ユ", "yu"), Pair("ヨ", "yo")]
  const KatakanaRa: seq<Pair> := [Pair("ラ", "ra"), Pair("リ", "ri"), Pair("ル", "ru"), Pair("レ", "re"), Pair("ロ", "ro")]
  const KatakanaWa: seq<Pair> := [Pair("ワ", "wa"), Pair("ヲ", "wo"), Pair("ン", "n")]

  function KatakanaSet(): (s: KanaSet)
    ensures s.charsType == Katakana
    ensures s.includeMap == AllIncluded
    ensures IsStandardShape(s.dictionary)
  {
    KanaSet("Катакана", Katakana,
      [KatakanaA, KatakanaSa, KatakanaKa, KatakanaTa, KatakanaNa, KatakanaHa, KatakanaMa, KatakanaYa, KatakanaRa, KatakanaWa],
      AllIncluded)
  }

  /** The fresh catalogue of the given kind. */
  function Catalogue(t: KanaType): (s: KanaSet)
    ensures s.charsType == t
    ensures s.includeMap == AllIncluded
  {
    match t
    case Hiragana => HiraganaSet()
    case Katakana => KatakanaSet()
  }

  /** `PartialEq::eq`: two sets are equal exactly when their names are. */
  function Equal(a: KanaSet, b: KanaSet): (r: bool)
    // for sets named like a catalogue, equality is sameness of kind, whatever the masks
    ensures a.name == Catalogue(a.charsType).name && b.name == Catalogue(b.charsType).name ==>
      (r <==> a.charsType == b.charsType)
  {
    a.name == b.name
  }

  /** Number of pairs in the rows whose mask entry is set. */
  function IncludedSize(rows: seq<seq<Pair>>, mask: seq<bool>): nat
    requires |rows| == |mask|
  {
    if |rows| == 0 then 0
    else IncludedSize(rows[..|rows| - 1], mask[..|mask| - 1])
         + (if mask[|mask| - 1] then |rows[|rows| - 1]| else 0)
  }

  /** The rows whose mask entry is set, concatenated in index order. */
  function Flatten(rows: seq<seq<Pair>>, mask: seq<bool>): (r: seq<Pair>)
    requires |rows| == |mask|
    ensures |r| == IncludedSize(rows, mask)
  {
    if |rows| == 0 then []
    else Flatten(rows[..|rows| - 1], mask[..|mask| - 1])
         + (if mask[|mask| - 1] then rows[|rows| - 1] else [])
  }

  /** `list()`: the included pairs, row by row, each row in its own order. */
  function List(s: KanaSet): (r: seq<Pair>)
    ensures |r| == IncludedSize(s.dictionary, s.includeMap)
  {
    Flatten(s.dictionary, s.includeMap)
  }

  /** `list()` as src/lang.rs computes it: a loop over the ten rows that
      pushes each pair of every included row. */
  method CollectList(s: KanaSet) returns (current: seq<Pair>)
    ensures current == List(s)
  {
    current := [];
    for i := 0 to RowCount
      invariant current == Flatten(s.dictionary[..i], s.includeMap[..i])
    {
      if s.includeMap[i] {
        var row := s.dictionary[i];
        for j := 0 to |row|
          invariant current == Flatten(s.dictionary[..i], s.includeMap[..i]) + row[..j]
        {
          current := current + [row[j]];
        }
        assert row[..|row|] == row;
      }
      assert s.dictionary[..i + 1][..i] == s.dictionary[..i];
      assert s.includeMap[..i + 1][..i] == s.includeMap[..i];
    }
    assert s.dictionary[..RowCount] == s.dictionary;
    assert s.includeMap[..RowCount] == s.includeMap;
  }

  /** Flattening distributes over concatenation of row sequences. */
  lemma {:induction false} FlattenAppend(a: seq<seq<Pair>>, ma: seq<bool>, b: seq<seq<Pair>>, mb: seq<bool>)
    requires |a| == |ma| && |b| == |mb|
    ensures Flatten(a + b, ma + mb) == Flatten(a, ma) + Flatten(b, mb)
    decreases |b|
  {
    if |b| == 0 {
      assert a + b == a;
      assert ma + mb == ma;
    } else {
      var b', mb' := b[..|b| - 1], mb[..|mb| - 1];
      assert (a + b)[..|a + b| - 1] == a + b';
      assert (ma + mb)[..|ma + mb| - 1] == ma + mb';
      FlattenAppend(a, ma, b', mb');
    }
  }

  /** Row `i` sits, whole and in order, between the included rows before it
      and the included rows after it; an excluded row contributes nothing. */
  lemma ListSplitsAtRow(s: KanaSet, i: nat)
    requires i < RowCount
    ensures List(s) == Flatten(s.dictionary[..i], s.includeMap[..i])
                       + (if s.includeMap[i] then s.dictionary[i] else [])
                       + Flatten(s.dictionary[i + 1..], s.includeMap[i + 1..])
  {
    var d, m := s.dictionary, s.includeMap;
    assert d == d[..i + 1] + d[i + 1..];
    assert m == m[..i + 1] + m[i + 1..];
    FlattenAppend(d[..i + 1], m[..i + 1], d[i + 1..], m[i + 1..]);
    assert d[..i + 1][..i] == d[..i];
    assert m[..i + 1][..i] == m[..i];
  }

  /** Clearing mask entry `i` removes exactly row `i` from `list()`, so the
      list shrinks by that row's size when the row was included. */
  lemma ClearRowRemovesRow(s: KanaSet, i: nat)
    requires i < RowCount
    ensures var cleared := s.(includeMap := s.includeMap[i := false]);
      && List(cleared) == Flatten(s.dictionary[..i], s.includeMap[..i])
                          + Flatten(s.dictionary[i + 1..], s.includeMap[i + 1..])
      && |List(cleared)| == |List(s)| - (if s.includeMap[i] then |s.dictionary[i]| else 0)
  {
    var cleared := s.(includeMap := s.includeMap[i := false]);
    ListSplitsAtRow(s, i);
    ListSplitsAtRow(cleared, i);
    assert cleared.includeMap[..i] == s.includeMap[..i];
    assert cleared.includeMap[i + 1..] == s.includeMap[i + 1..];
  }

  /** A pair is listed exactly when some included row holds it. */
  lemma {:induction false} FlattenMembership(rows: seq<seq<Pair>>, mask: seq<bool>, p: Pair)
    requires |rows| == |mask|
    ensures p in Flatten(rows, mask) <==>
      exists i, j :: 0 <= i < |rows| && mask[i] && 0 <= j < |rows[i]| && rows[i][j] == p
    decreases |rows|
  {
    if |rows| > 0 {
      var n := |rows| - 1;
      FlattenMembership(rows[..n], mask[..n], p);
      if p in Flatten(rows, mask) {
        if p in Flatten(rows[..n], mask[..n]) {
          var i, j :| 0 <= i < n && mask[..n][i] && 0 <= j < |rows[..n][i]| && rows[..n][i][j] == p;
          assert rows[i][j] == p;
        } else {
          var j :| 0 <= j < |rows[n]| && rows[n][j] == p;
          assert mask[n] && rows[n][j] == p;
        }
      }
      if exists i, j :: 0 <= i < |rows| && mask[i] && 0 <= j < |rows[i]| && rows[i][j] == p {
        var i, j :| 0 <= i < |rows| && mask[i] && 0 <= j < |rows[i]| && rows[i][j] == p;
        if i < n {
          assert rows[..n][i][j] == p && mask[..n][i];
        } else {
          assert rows[n][j] == p;
        }
      }
    }
  }

  /** Extending the prefix by one row adds that row's size when it is included. */
  lemma IncludedSizeStep(rows: seq<seq<Pair>>, mask: seq<bool>, k: nat)
    requires |rows| == |mask| && k < |rows|
    ensures IncludedSize(rows[..k + 1], mask[..k + 1])
            == IncludedSize(rows[..k], mask[..k]) + (if mask[k] then |rows[k]| else 0)
  {
    assert rows[..k + 1][..k] == rows[..k];
    assert mask[..k + 1][..k] == mask[..k];
  }

  /** With every row included, `list()` holds all 46 pairs of either catalogue. */
  lemma FullListSize(s: KanaSet)
    requires s.includeMap == AllIncluded
    requires IsStandardShape(s.dictionary)
    ensures |List(s)| == 46
  {
    var d, m := s.dictionary, s.includeMap;
    for k := 0 to RowCount
      invariant IncludedSize(d[..k], m[..k]) == 5 * k - (if k > 7 then 2 else 0) - (if k > 9 then 2 else 0)
    {
      IncludedSizeStep(d, m, k);
    }
    assert d[..RowCount] == d && m[..RowCount] == m;
  }

  /** With no row included, `list()` is empty. */
  lemma {:induction false} NoRowsNoPairs(rows: seq<seq<Pair>>, mask: seq<bool>)
    requires |rows| == |mask|
    requires forall i | 0 <= i < |mask| :: !mask[i]
    ensures Flatten(rows, mask) == []
    decreases |rows|
  {
    if |rows| > 0 {
      NoRowsNoPairs(rows[..|rows| - 1], mask[..|mask| - 1]);
    }
  }

  /** The two catalogues agree on every romanization, position by position,
      and differ in every glyph. */
  lemma SameRomanization(i: nat, j: nat)
    requires i < RowCount && j < StandardRowSize(i)
    ensures HiraganaSet().dictionary[i][j].roman == KatakanaSet().dictionary[i][j].roman
    ensures HiraganaSet().dictionary[i][j].glyph != KatakanaSet().dictionary[i][j].glyph
  {
  }

  /** Equality ignores the mask: sets of one kind are equal whatever rows they
      include, and the two kinds are never equal. */
  lemma EqualityIgnoresMask(a: KanaSet, b: KanaSet)
    requires a.charsType == b.charsType
    ensures Equal(Catalogue(a.charsType).(includeMap := a.includeMap),
                  Catalogue(b.charsType).(includeMap := b.includeMap))
    ensures !Equal(HiraganaSet(), KatakanaSet())
  {
  }
}
