/** docs/js/components/Carousel.js: the home-page carousel. Each item carries
    an `active` class and an `aria-hidden` attribute, each indicator button an
    `active` class; the autoplay interval is a flag saying whether a timer is
    set. */
module Carousel {
  import Lightbox

  /** The index `next` moves to: one on, and past the end either back to the
      start (looping) or stay on the last item. */
  function NextSlide(i: nat, n: nat, loop: bool): nat
    requires n > 0
  {
    if i + 1 >= n then (if loop then 0 else n - 1) else i + 1
  }

  /** The index `previous` moves to: one back, and before the start either to
      the last item (looping) or stay on the first. */
  function PrevSlide(i: nat, n: nat, loop: bool): nat
    requires n > 0
  {
    if i - 1 < 0 then (if loop then n - 1 else 0) else i - 1
  }

  /** Both moves stay on an item; a looping carousel wraps exactly like the
      viewer's modular slide arithmetic, a non-looping one clamps at the ends;
      away from the ends each move undoes the other. */
  lemma SlideMoves(i: nat, n: nat, loop: bool)
    requires i < n
    ensures NextSlide(i, n, loop) < n && PrevSlide(i, n, loop) < n
    ensures loop ==> NextSlide(i, n, loop) == Lightbox.NextIndex(i, n)
    ensures loop ==> PrevSlide(i, n, loop) == Lightbox.PrevIndex(i, n)
    ensures !loop && i == n - 1 ==> NextSlide(i, n, loop) == i
    ensures !loop && i == 0 ==> PrevSlide(i, n, loop) == 0
    ensures i + 1 < n ==> PrevSlide(NextSlide(i, n, loop), n, loop) == i
    ensures 0 < i ==> NextSlide(PrevSlide(i, n, loop), n, loop) == i
  {
    Lightbox.NextPrevInverse(i, n);
  }

  class Carousel {
    /** The number of items. */
    const n: nat
    const loop: bool
    /** Whether the indicator container exists (and with it the controls). */
    const hasIndicators: bool
    var currentIndex: nat
    var isPlaying: bool
    /** `autoplayTimer !== null`. */
    var timerSet: bool
    var active: seq<bool>
    var hidden: seq<bool>
    var indicators: seq<bool>

    /** Item and indicator lists match the item count, and a timer only runs
        on a looping carousel that is playing. */
    ghost predicate Valid()
      reads this
    {
      Shaped() && (timerSet ==> loop && isPlaying)
    }

    /** Item and indicator lists match the item count. */
    ghost predicate Shaped()
      reads this
    {
      |active| == n && |hidden| == n && (|indicators| == 0 || |indicators| == n)
      && (n > 0 ==> currentIndex < n) && (n == 0 ==> currentIndex == 0)
    }

    /** Exactly the item at `currentIndex` is active and visible, and so is
        its indicator. */
    ghost predicate Synced()
      reads this
    {
      Valid()
      && (forall i :: 0 <= i < n ==> (active[i] <==> i == currentIndex))
      && (forall i :: 0 <= i < n ==> (hidden[i] <==> i != currentIndex))
      && (forall i :: 0 <= i < |indicators| ==> (indicators[i] <==> i == currentIndex))
    }

    /** `new Carousel(...)` over items whose classes are as the page left
        them; `init` runs at once. */
    constructor (loop: bool, hasIndicators: bool, pageActive: seq<bool>, pageHidden: seq<bool>)
      requires |pageActive| == |pageHidden|
      ensures Valid() && this.loop == loop && n == |pageActive| && currentIndex == 0 && isPlaying
      ensures n == 0 ==> active == pageActive && hidden == pageHidden && indicators == [] && !timerSet
      ensures n > 0 ==> Synced() && timerSet == loop
      ensures n > 0 ==> |indicators| == (if hasIndicators then n else 0)
    {
      this.n := |pageActive|;
      this.loop := loop;
      this.hasIndicators := hasIndicators;
      currentIndex := 0;
      isPlaying := true;
      timerSet := false;
      active := pageActive;
      hidden := pageHidden;
      indicators := [];
      new;
      Init();
    }

    /** `init`: with no items nothing happens; otherwise the first item is
        made the only active one, indicators are created and autoplay starts. */
    method Init()
      requires Valid() && currentIndex == 0 && indicators == [] && !timerSet
      modifies this`active, this`hidden, this`indicators, this`timerSet
      ensures Valid()
      ensures n == 0 ==> unchanged(this)
      ensures n > 0 ==> Synced() && timerSet == (loop && isPlaying)
      ensures n > 0 ==> |indicators| == (if hasIndicators then n else 0)
    {
      if n == 0 {
        return;
      }
      SetupItems();
      if hasIndicators {
        SetupIndicators();
      }
      StartAutoplay();
    }

    /** `setupItems`: item 0 active and visible, every other one inactive and
        hidden. */
    method SetupItems()
      requires Valid() && n > 0 && currentIndex == 0
      modifies this`active, this`hidden
      ensures Valid()
      ensures forall i :: 0 <= i < n ==> (active[i] <==> i == 0) && (hidden[i] <==> i != 0)
    {
      var i := 0;
      while i < n
        invariant 0 <= i <= n && Valid()
        invariant forall k :: 0 <= k < i ==> (active[k] <==> k == 0) && (hidden[k] <==> k != 0)
      {
        active := active[i := i == 0];
        hidden := hidden[i := i != 0];
        i := i + 1;
      }
    }

    /** `setupIndicators`: one indicator per item, the first one active. */
    method SetupIndicators()
      requires Valid() && n > 0
      modifies this`indicators
      ensures Valid() && |indicators| == n
      ensures forall i :: 0 <= i < n ==> (indicators[i] <==> i == 0)
    {
      indicators := [];
      var i := 0;
      while i < n
        invariant 0 <= i <= n && |indicators| == i
        invariant forall k :: 0 <= k < i ==> (indicators[k] <==> k == 0)
      {
        indicators := indicators + [i == 0];
        i := i + 1;
      }
    }

    /** `updateIndicators`: exactly the current slide's indicator is active. */
    method UpdateIndicators()
      requires Valid()
      modifies this`indicators
      ensures Valid() && |indicators| == |old(indicators)|
      ensures forall i :: 0 <= i < |indicators| ==> (indicators[i] <==> i == currentIndex)
    {
      var i := 0;
      while i < |indicators|
        invariant 0 <= i <= |indicators| && |indicators| == |old(indicators)|
        invariant forall k :: 0 <= k < i ==> (indicators[k] <==> k == currentIndex)
      {
        indicators := indicators[i := i == currentIndex];
        i := i + 1;
      }
    }

    /** `goTo(index)`: to the same slide nothing happens; otherwise the old
        item is deactivated and hidden, the new one activated and shown. */
    method GoTo(index: nat)
      requires Synced() && index < n
      modifies this`currentIndex, this`active, this`hidden, this`indicators
      ensures Synced() && currentIndex == index
      ensures |indicators| == |old(indicators)|
      ensures index == old(currentIndex) ==> unchanged(this)
      ensures forall i :: 0 <= i < n && i != index && i != old(currentIndex) ==>
                active[i] == old(active[i]) && hidden[i] == old(hidden[i])
    {
      if index == currentIndex {
        return;
      }
      var prev := currentIndex;
      currentIndex := index;
      active := active[prev := false][currentIndex := true];
      hidden := hidden[prev := true][currentIndex := false];
      UpdateIndicators();
    }

    /** `next`. */
    method Next()
      requires Synced() && n > 0
      modifies this`currentIndex, this`active, this`hidden, this`indicators
      ensures Synced() && currentIndex == NextSlide(old(currentIndex), n, loop)
      ensures |indicators| == |old(indicators)|
    {
      var i := currentIndex + 1;
      if i >= n {
        i := if loop then 0 else n - 1;
      }
      GoTo(i);
    }

    /** `previous`. */
    method Previous()
      requires Synced() && n > 0
      modifies this`currentIndex, this`active, this`hidden, this`indicators
      ensures Synced() && currentIndex == PrevSlide(old(currentIndex), n, loop)
      ensures |indicators| == |old(indicators)|
    {
      var i: int := currentIndex - 1;
      if i < 0 {
        i := if loop then n - 1 else 0;
      }
      GoTo(i);
    }

    /** `stopAutoplay`. */
    method StopAutoplay()
      requires Shaped()
      modifies this`timerSet
      ensures Valid() && !timerSet
    {
      timerSet := false;
    }

    /** `startAutoplay`: a fresh timer, only on a looping carousel that is
        playing; otherwise nothing changes. */
    method StartAutoplay()
      requires Valid()
      modifies this`timerSet
      ensures Valid()
      ensures loop && isPlaying ==> timerSet
      ensures !(loop && isPlaying) ==> timerSet == old(timerSet)
    {
      if !loop || !isPlaying {
        return;
      }
      StopAutoplay();
      timerSet := true;
    }

    /** `pause`. */
    method Pause()
      requires Valid()
      modifies this`isPlaying, this`timerSet
      ensures Valid() && !isPlaying && !timerSet
    {
      isPlaying := false;
      StopAutoplay();
    }

    /** `play`. */
    method Play()
      requires Valid()
      modifies this`isPlaying, this`timerSet
      ensures Valid() && isPlaying && timerSet == (loop || old(timerSet))
    {
      isPlaying := true;
      StartAutoplay();
    }

    /** One tick of the autoplay interval. */
    method Tick()
      requires Synced() && n > 0 && timerSet
      modifies this`currentIndex, this`active, this`hidden, this`indicators
      ensures Synced() && currentIndex == NextSlide(old(currentIndex), n, loop)
      ensures |indicators| == |old(indicators)|
    {
      Next();
    }

    /** `handleSwipe(startX, endX)`: beyond the 50 pixel threshold the
        carousel moves (left swipe forward) and autoplay restarts. */
    method HandleSwipe(startX: real, endX: real)
      requires Synced() && n > 0
      modifies this`currentIndex, this`active, this`hidden, this`indicators, this`timerSet
      ensures Synced()
      ensures |indicators| == |old(indicators)|
      ensures Lightbox.SwipeAction(startX, endX) == Lightbox.Stay ==> unchanged(this)
      ensures Lightbox.SwipeAction(startX, endX) == Lightbox.GoNext ==>
                currentIndex == NextSlide(old(currentIndex), n, loop) && timerSet == (loop && isPlaying)
      ensures Lightbox.SwipeAction(startX, endX) == Lightbox.GoPrevious ==>
                currentIndex == PrevSlide(old(currentIndex), n, loop) && timerSet == (loop && isPlaying)
    {
      match Lightbox.SwipeAction(startX, endX)
      case Stay =>
      case GoNext =>
        StopAutoplay();
        Next();
        StartAutoplay();
      case GoPrevious =>
        StopAutoplay();
        Previous();
        StartAutoplay();
    }

    /** A click on indicator `index`: jump there and restart autoplay. */
    method ClickIndicator(index: nat)
      requires Synced() && index < n
      modifies this`currentIndex, this`active, this`hidden, this`indicators, this`timerSet
      ensures Synced() && currentIndex == index && timerSet == (loop && isPlaying)
      ensures |indicators| == |old(indicators)|
    {
      StopAutoplay();
      GoTo(index);
      StartAutoplay();
    }

    /** `destroy`. */
    method Destroy()
      requires Valid()
      modifies this`timerSet
      ensures Valid() && !timerSet
    {
      StopAutoplay();
    }
  }
}
