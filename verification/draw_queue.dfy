/** The quiz's draw queue (`update_showed` in src/quiz.rs): pairs are popped
    from the end; an empty queue is first refilled with a shuffle of the
    current `list()`. The shuffle itself is supplied by the caller. */
module DrawQueue {
  import opened Lang
  import opened Outcomes

  /** `s` is some reordering of `list`: what `shuffle` may produce from it. */
  predicate IsShuffleOf(s: seq<Pair>, list: seq<Pair>) {
    multiset(s) == multiset(list)
  }

  /** The popped pair and the queue left behind. */
  datatype Drawn = Drawn(pair: Pair, rest: seq<Pair>)

  /** The sequence in the order repeated pops from its end return it. */
  function Reverse(s: seq<Pair>): (r: seq<Pair>)
    ensures |r| == |s|
  {
    if s == [] then [] else Reverse(s[1..]) + [s[0]]
  }

  lemma {:induction false} ReverseKeepsElements(s: seq<Pair>)
    ensures multiset(Reverse(s)) == multiset(s)
  {
    if s != [] {
      ReverseKeepsElements(s[1..]);
      assert s == [s[0]] + s[1..];
    }
  }

  /** Reversing the sequence without its last element, then appending that
      element, reverses the whole sequence. */
  lemma {:induction false} ReverseOfSnoc(s: seq<Pair>, x: Pair)
    ensures Reverse(s + [x]) == [x] + Reverse(s)
  {
    if s == [] {
      assert s + [x] == [x];
    } else {
      assert (s + [x])[1..] == s[1..] + [x];
      ReverseOfSnoc(s[1..], x);
    }
  }

  /** One draw: refill from `shuffled` when the queue is empty, then pop the
      last pair. Popping from a queue that is still empty panics. */
  function Draw(queue: seq<Pair>, list: seq<Pair>, shuffled: seq<Pair>): (r: Outcome<Drawn>)
    requires IsShuffleOf(shuffled, list)
    ensures r.Crash? <==> queue == [] && list == []
    ensures r.Crash? ==> r.reason == PopOnEmpty
    ensures r.Done? && queue != [] ==> r.value.rest + [r.value.pair] == queue
    ensures r.Done? && queue == [] ==> r.value.rest + [r.value.pair] == shuffled
  {
    var filled := if queue == [] then shuffled else queue;
    if filled == [] then
      assert |list| == |multiset(list)| == |multiset(shuffled)| == 0;
      Crash(PopOnEmpty)
    else
      Done(Drawn(filled[|filled| - 1], filled[..|filled| - 1]))
  }

  /** A draw keeps the queue inside the current list: the drawn pair and the
      remaining queue come out of `list` without reuse. */
  lemma DrawStaysInList(queue: seq<Pair>, list: seq<Pair>, shuffled: seq<Pair>)
    requires IsShuffleOf(shuffled, list)
    requires multiset(queue) <= multiset(list)
    ensures var r := Draw(queue, list, shuffled);
      r.Done? ==> multiset(r.value.rest) + multiset{r.value.pair} <= multiset(list)
                  && r.value.pair in list
  {
    var r := Draw(queue, list, shuffled);
    if r.Done? {
      var filled := r.value.rest + [r.value.pair];
      assert multiset(filled) == multiset(r.value.rest) + multiset{r.value.pair};
      assert r.value.pair in multiset(filled);
    }
  }

  /** The outcome of several consecutive draws: the pairs drawn, in order,
      and the queue left at the end. */
  datatype Run = Run(drawn: seq<Pair>, queue: seq<Pair>)

  /** `|shuffles|` draws; draw `k` refills from `shuffles[k]` if it must. */
  function Draws(queue: seq<Pair>, list: seq<Pair>, shuffles: seq<seq<Pair>>): (r: Outcome<Run>)
    requires forall k | 0 <= k < |shuffles| :: IsShuffleOf(shuffles[k], list)
    ensures r.Done? ==> |r.value.drawn| == |shuffles|
    decreases |shuffles|
  {
    if shuffles == [] then Done(Run([], queue))
    else
      match Draw(queue, list, shuffles[0])
      case Crash(why) => Crash(why)
      case Done(d) =>
        match Draws(d.rest, list, shuffles[1..])
        case Crash(why) => Crash(why)
        case Done(run) => Done(Run([d.pair] + run.drawn, run.queue))
  }

  /** Draining a non-empty queue with as many draws as it holds returns its
      pairs in reverse order and never refills. */
  lemma {:induction false} DrainReverses(queue: seq<Pair>, list: seq<Pair>, shuffles: seq<seq<Pair>>)
    requires forall k | 0 <= k < |shuffles| :: IsShuffleOf(shuffles[k], list)
    requires |shuffles| == |queue|
    ensures Draws(queue, list, shuffles) == Done(Run(Reverse(queue), []))
    decreases |shuffles|
  {
    if queue != [] {
      var last, front := queue[|queue| - 1], queue[..|queue| - 1];
      assert front + [last] == queue;
      var d := Draw(queue, list, shuffles[0]);
      assert d == Done(Drawn(last, front));
      DrainReverses(front, list, shuffles[1..]);
      ReverseOfSnoc(front, last);
    }
  }

  /** A cycle: starting from an empty queue, `|list|` draws return every pair
      of `list` exactly once (a reordering of it) and leave the queue empty,
      so the next draw refills. Repeats are possible only across cycles. */
  lemma CycleDrawsEachPairOnce(list: seq<Pair>, shuffles: seq<seq<Pair>>)
    requires forall k | 0 <= k < |shuffles| :: IsShuffleOf(shuffles[k], list)
    requires |shuffles| == |list|
    ensures Draws([], list, shuffles).Done?
    ensures multiset(Draws([], list, shuffles).value.drawn) == multiset(list)
    ensures Draws([], list, shuffles).value.queue == []
  {
    if shuffles == [] {
      return;
    }
    var s := shuffles[0];
    assert |s| == |multiset(s)| == |multiset(list)| == |list|;
    var last, front := s[|s| - 1], s[..|s| - 1];
    assert front + [last] == s;
    assert Draw([], list, s) == Done(Drawn(last, front));
    DrainReverses(front, list, shuffles[1..]);
    ReverseOfSnoc(front, last);
    ReverseKeepsElements(s);
  }
}
