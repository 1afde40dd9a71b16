/** The special-offers carousel of the landing page (OffersSection): an index
    into four slides moved by the arrow buttons, the dots and the autoplay
    timer, and the active / previous / next highlighting derived from it. */
module Offers {

  /** offers.length: the carousel always shows four slides. */
  const SlideCount: int := 4

  type SlideIndex = i: int | 0 <= i < SlideCount

  /** useState(0): the carousel opens on the first slide. */
  const InitialSlide: SlideIndex := 0

  /** JavaScript's `%`: the remainder takes the sign of the dividend
      (truncating division), unlike Dafny's Euclidean `%`. */
  function JsRemainder(a: int, n: int): (r: int)
    requires n > 0
    ensures -n < r < n
    ensures a >= 0 ==> r == a % n
    ensures a < 0 ==> r == if a % n == 0 then 0 else a % n - n
  {
    if a >= 0 then a % n else NegativeRemainder(a, n); -((-a) % n)
  }

  /** For a negative dividend, the truncating remainder is zero when n
      divides a and otherwise the Euclidean one shifted down by n. */
  lemma NegativeRemainder(a: int, n: int)
    requires n > 0 && a < 0
    ensures -((-a) % n) == if a % n == 0 then 0 else a % n - n
  {
    var q, m := (-a) / n, (-a) % n;
    if m == 0 {
      assert a == n * (-q) + 0;
      ModUnique(a, n, -q, 0);
    } else {
      assert a == n * (-q - 1) + (n - m);
      ModUnique(a, n, -q - 1, n - m);
    }
  }

  /** The Euclidean remainder is the only r in [0, n) with a == n * k + r. */
  lemma ModUnique(a: int, n: int, k: int, r: int)
    requires n > 0 && 0 <= r < n && a == n * k + r
    ensures a % n == r
  {
    var q := a / n;
    assert a == n * q + a % n;
    assert n * k - n * q == a % n - r;
    if k > q {
      assert n * (k - q) == n * k - n * q;
      MulAtLeast(n, k - q);
    } else if k < q {
      assert n * (q - k) == n * q - n * k;
      MulAtLeast(n, q - k);
    }
  }

  lemma MulAtLeast(n: int, d: int)
    requires n > 0 && d > 0
    ensures n * d >= n
  {
    assert n * d == n + n * (d - 1);
  }

  /** nextSlide: one slide forward, wrapping from the last to the first. */
  function NextSlide(prev: SlideIndex): (r: SlideIndex)
    ensures r == if prev == SlideCount - 1 then 0 else prev + 1
  {
    JsRemainder(prev + 1, SlideCount)
  }

  /** prevSlide: one slide back, wrapping from the first to the last. */
  function PrevSlide(prev: SlideIndex): (r: SlideIndex)
    ensures r == if prev == 0 then SlideCount - 1 else prev - 1
  {
    JsRemainder(prev - 1 + SlideCount, SlideCount)
  }

  /** The highlighting of slide `index` when `current` is shown. */
  predicate IsActive(index: int, current: SlideIndex) {
    index == current
  }

  predicate IsPrev(index: int, current: SlideIndex)
    ensures IsPrev(index, current) <==> index == (if current == 0 then SlideCount - 1 else current - 1)
  {
    index == JsRemainder(current - 1 + SlideCount, SlideCount)
  }

  predicate IsNext(index: int, current: SlideIndex)
    ensures IsNext(index, current) <==> index == (if current == SlideCount - 1 then 0 else current + 1)
  {
    index == JsRemainder(current + 1, SlideCount)
  }

  /** A slide is shown undimmed when it is active, previous or next. */
  predicate IsVisible(index: int, current: SlideIndex)
    ensures IsVisible(index, current) <==> 0 <= index < SlideCount && index != (current + 2) % SlideCount
  {
    IsActive(index, current) || IsPrev(index, current) || IsNext(index, current)
  }

  /** What can move the carousel: the two arrow buttons, a dot, and the
      autoplay interval, which calls nextSlide. */
  datatype Event = PrevClicked | NextClicked | DotClicked(dot: SlideIndex) | AutoplayTick

  function Step(current: SlideIndex, e: Event): (r: SlideIndex)
    ensures e.DotClicked? ==> r == e.dot
    ensures e == PrevClicked ==> r == (current + SlideCount - 1) % SlideCount
    ensures e == NextClicked || e == AutoplayTick ==> r == (current + 1) % SlideCount
  {
    match e
    case PrevClicked => PrevSlide(current)
    case NextClicked => NextSlide(current)
    case DotClicked(dot) => dot
    case AutoplayTick => NextSlide(current)
  }

  /** The index after a sequence of events, starting from `current`. */
  function Run(current: SlideIndex, events: seq<Event>): SlideIndex
    decreases |events|
  {
    if events == [] then current else Run(Step(current, events[0]), events[1..])
  }

  /** Running two sequences of events one after the other is running their
      concatenation. */
  lemma {:induction false} RunAppend(current: SlideIndex, xs: seq<Event>, ys: seq<Event>)
    ensures Run(current, xs + ys) == Run(Run(current, xs), ys)
    decreases |xs|
  {
    if xs != [] {
      assert (xs + ys)[0] == xs[0];
      assert (xs + ys)[1..] == xs[1..] + ys;
      RunAppend(Step(current, xs[0]), xs[1..], ys);
    } else {
      assert xs + ys == ys;
    }
  }

  /** Whatever happened before, the last dot click decides the slide. */
  lemma LastDotDecides(current: SlideIndex, events: seq<Event>, dot: SlideIndex)
    ensures Run(current, events + [DotClicked(dot)]) == dot
  {
    RunAppend(current, events, [DotClicked(dot)]);
  }

  function Ticks(n: nat): (ts: seq<Event>)
    ensures |ts| == n && forall k | 0 <= k < n :: ts[k] == AutoplayTick
  {
    seq(n, _ => AutoplayTick)
  }

  // -----------------------------------------------------------------------
  // Properties of the carousel

  /** prevSlide undoes nextSlide and nextSlide undoes prevSlide. */
  lemma PrevUndoesNext(i: SlideIndex)
    ensures PrevSlide(NextSlide(i)) == i
    ensures NextSlide(PrevSlide(i)) == i
  {
  }

  /** Clicking a dot shows exactly that slide, whatever was shown before. */
  lemma DotSelects(current: SlideIndex, dot: SlideIndex)
    ensures Step(current, DotClicked(dot)) == dot
  {
  }

  /** The active, previous and next slides are three different slides, and
      the highlighting predicates agree with prevSlide and nextSlide. */
  lemma NeighboursDistinct(current: SlideIndex)
    ensures IsPrev(PrevSlide(current), current) && IsNext(NextSlide(current), current)
    ensures PrevSlide(current) != current && NextSlide(current) != current
    ensures PrevSlide(current) != NextSlide(current)
  {
  }

  /** Exactly one of the four slides is dimmed: the one opposite the active one. */
  lemma OneSlideHidden(current: SlideIndex, index: SlideIndex)
    ensures !IsVisible(index, current) <==> index == (current + 2) % SlideCount
  {
  }

  /** n autoplay ticks move the carousel n slides forward, modulo four. */
  lemma {:induction false} AutoplayAdvances(current: SlideIndex, n: nat)
    ensures Run(current, Ticks(n)) == (current + n) % SlideCount
    decreases n
  {
    if n > 0 {
      assert Ticks(n) == [AutoplayTick] + Ticks(n - 1);
      AutoplayAdvances(NextSlide(current), n - 1);
    }
  }

  /** From page load, with only the timer running, the slide shown after n
      ticks is slide n modulo four. */
  lemma SlideAfterTicksFromLoad(n: nat)
    ensures Run(InitialSlide, Ticks(n)) == n % SlideCount
  {
    AutoplayAdvances(InitialSlide, n);
  }

  /** Four ticks (or four nextSlide calls) bring the carousel back where it was. */
  lemma FourTicksReturn(current: SlideIndex)
    ensures Run(current, Ticks(SlideCount)) == current
    ensures NextSlide(NextSlide(NextSlide(NextSlide(current)))) == current
  {
    AutoplayAdvances(current, SlideCount);
  }
}
