/** docs/js/components/Lightbox.js: the full-screen artwork viewer. Its state
    is the list of image URLs of the open artwork, the index of the one shown,
    whether the viewer is open, the touch positions of a swipe and the zoom of
    a pinch or double tap; the text fields of the dialog are kept as the
    strings written into them. `JSON.parse` and `window.getTranslation` are
    parameters. */
module Lightbox {
  import opened Wrappers
  import Strings
  import WebStorage

  const SwipeThreshold: real := 50.0
  const DoubleTapDelay: int := 300
  const ZoomMin: real := 1.0
  const ZoomMax: real := 4.0
  const InquiryKey: string := "inquiryMessage"

  /** The slide after `i` among `n`, wrapping from the last to the first. */
  function NextIndex(i: nat, n: nat): nat
    requires n > 0
  {
    (i + 1) % n
  }

  /** The slide before `i` among `n`, wrapping from the first to the last. */
  function PrevIndex(i: nat, n: nat): nat
    requires n > 0
  {
    (i - 1 + n) % n
  }

  /** Both moves stay on a slide, and each undoes the other. */
  lemma NextPrevInverse(i: nat, n: nat)
    requires i < n
    ensures NextIndex(i, n) == (if i == n - 1 then 0 else i + 1)
    ensures PrevIndex(i, n) == (if i == 0 then n - 1 else i - 1)
    ensures NextIndex(i, n) < n && PrevIndex(i, n) < n
    ensures PrevIndex(NextIndex(i, n), n) == i
    ensures NextIndex(PrevIndex(i, n), n) == i
  {
    ModOfSmall(i + 1, n);
    ModOfSmall(i - 1 + n, n);
    var j := NextIndex(i, n);
    var k := PrevIndex(i, n);
    ModOfSmall(j - 1 + n, n);
    ModOfSmall(k + 1, n);
  }

  /** `x % n` for `0 <= x < 2n`. */
  lemma ModOfSmall(x: int, n: int)
    requires 0 < n && 0 <= x < 2 * n
    ensures x % n == if x < n then x else x - n
  {
  }

  /** `Math.max(zoomMin, Math.min(zoomMax, x))`. */
  function ClampZoom(x: real): (r: real)
    ensures ZoomMin <= r <= ZoomMax
    ensures ZoomMin <= x <= ZoomMax ==> r == x
    ensures x < ZoomMin ==> r == ZoomMin
    ensures x > ZoomMax ==> r == ZoomMax
  {
    if x > ZoomMax then ZoomMax else if x < ZoomMin then ZoomMin else x
  }

  datatype Nav = Stay | GoNext | GoPrevious

  /** The decision of `handleSwipe`: moving the finger left by more than the
      threshold shows the next image, right by more than it the previous one. */
  function SwipeAction(startX: real, endX: real): Nav {
    var diff := startX - endX;
    if (if diff < 0.0 then -diff else diff) > SwipeThreshold then
      (if diff > 0.0 then GoNext else GoPrevious)
    else Stay
  }

  lemma SwipeActionCases(startX: real, endX: real)
    ensures SwipeAction(startX, endX) == GoNext <==> startX - endX > SwipeThreshold
    ensures SwipeAction(startX, endX) == GoPrevious <==> endX - startX > SwipeThreshold
    ensures SwipeAction(startX, endX) == Stay <==> -SwipeThreshold <= startX - endX <= SwipeThreshold
  {
  }

  /** `${label} ${value || ''}`, as the size and materials lines are written. */
  function LabelLine(caption: string, value: Option<string>): string {
    caption + " " + value.GetOr("")
  }

  /** The `data-*` attributes of a gallery item that opens the viewer. */
  datatype Trigger = Trigger(
    images: Option<string>, img: string, title: Option<string>, size: Option<string>,
    materials: Option<string>, description: Option<string>, price: Option<string>,
    available: Option<string>)

  /** The slides of a trigger: the parsed `data-images` list, or the single
      `data-img` when that attribute is missing, empty or not valid JSON. */
  function TriggerImages(t: Trigger, parse: string -> Option<seq<string>>): (r: seq<string>)
    ensures t.images.None? || t.images.value == "" ==> r == [t.img]
    ensures t.images.Some? && t.images.value != "" && parse(t.images.value).None? ==> r == [t.img]
    ensures t.images.Some? && t.images.value != "" && parse(t.images.value).Some? ==> r == parse(t.images.value).value
  {
    if t.images.Some? && t.images.value != "" then parse(t.images.value).GetOr([t.img]) else [t.img]
  }

  /** `${currentIndex + 1} / ${images.length}`. */
  function IndicatorText(i: nat, n: nat): string {
    Strings.NatToString(i + 1) + " / " + Strings.NatToString(n)
  }

  /** The text stored for the contact form by `handleInquiry`: the shown title
      (or "this artwork") and the size line with its first "Size: " removed. */
  function InquiryMessage(titleText: string, sizeText: string): (m: string)
    ensures titleText != "" ==>
      Strings.StartsWith(m, "I'm interested in \"" + titleText + "\" (")
    ensures titleText == "" ==>
      Strings.StartsWith(m, "I'm interested in \"this artwork\" (")
  {
    var title := if titleText != "" then titleText else "this artwork";
    var size := Strings.ReplaceFirst(sizeText, "Size: ", "");
    var head := "I'm interested in \"" + title + "\" (";
    var tail := size + "). Please provide more information about availability and pricing.";
    Strings.StartsWithAppend(head, tail);
    head + tail
  }

  /** With the English label the size line loses its prefix, so the message
      carries the bare size. */
  lemma InquiryEnglishSize(titleText: string, size: string)
    requires titleText != ""
    ensures InquiryMessage(titleText, LabelLine("Size:", Some(size)))
            == "I'm interested in \"" + titleText + "\" (" + size
               + "). Please provide more information about availability and pricing."
  {
    assert Strings.StartsWith(LabelLine("Size:", Some(size)), "Size: ");
  }

  class Lightbox {
    var images: seq<string>
    var currentIndex: nat
    var isOpen: bool
    var ariaHidden: bool
    var touchStartX: real
    var touchEndX: real
    var scale: real
    var lastScale: real
    var translateX: real
    var translateY: real
    var lastTranslateX: real
    var lastTranslateY: real
    var lastTap: int
    /** The finger distance at the start of a pinch (`this.initialDist`). */
    var initialDist: Option<real>
    // The dialog's text and display state.
    var titleText: string
    var sizeText: string
    var materialsText: string
    var descriptionText: string
    var priceText: string
    var availabilityHidden: bool
    var shownSrc: string
    var navVisible: bool
    var indicatorVisible: bool
    var indicatorText: string

    /** The index addresses a slide (or is 0 with none), and the zoom stays
        within its limits. */
    ghost predicate Valid()
      reads this
    {
      (|images| > 0 ==> currentIndex < |images|)
      && (|images| == 0 ==> currentIndex == 0)
      && ZoomMin <= scale <= ZoomMax && ZoomMin <= lastScale <= ZoomMax
      && (initialDist.Some? ==> initialDist.value >= 0.0)
    }

    /** The slider as `updateSlider` leaves it for the current slide: its
        image shown, navigation and indicator visible exactly when there are
        several slides, and the indicator counting them (otherwise it keeps
        the text `text0` it had). */
    ghost predicate SliderShows(text0: string)
      reads this`images, this`currentIndex, this`shownSrc, this`navVisible, this`indicatorVisible, this`indicatorText
    {
      |images| > 0 && currentIndex < |images| ==>
        shownSrc == images[currentIndex] && navVisible == (|images| > 1) && indicatorVisible == (|images| > 1)
        && indicatorText == if |images| > 1 then IndicatorText(currentIndex, |images|) else text0
    }

    /** What `updateSlider` leaves, from the slider fields `src0`, `nav0`,
        `vis0`, `text0` it found: the current slide shown, or, with no
        slides, the fields as they were. */
    ghost predicate SliderUpdated(src0: string, nav0: bool, vis0: bool, text0: string)
      reads this`images, this`currentIndex, this`shownSrc, this`navVisible, this`indicatorVisible, this`indicatorText
    {
      SliderShows(text0)
      && (|images| == 0 ==> shownSrc == src0 && navVisible == nav0 && indicatorVisible == vis0 && indicatorText == text0)
    }

    /** The dialog as `setContent` fills it from trigger `t`, with labels
        and the price fallback from the translations `tr`. */
    ghost predicate ContentFrom(t: Trigger, tr: string -> Option<string>)
      reads this`titleText, this`sizeText, this`materialsText, this`descriptionText,
            this`priceText, this`availabilityHidden
    {
      titleText == t.title.GetOr("") && descriptionText == t.description.GetOr("")
      && sizeText == LabelLine(Strings.OrElse(tr("lightbox.size"), "Size:"), t.size)
      && materialsText == LabelLine(Strings.OrElse(tr("lightbox.materials"), "Materials:"), t.materials)
      && priceText == (if t.price.Some? && t.price.value != "" then t.price.value
                       else Strings.OrElse(tr("lightbox.priceOnRequest"), "Price on Request"))
      && (availabilityHidden <==> t.available == Some("true"))
    }

    /** Scale 1 with no translation. */
    ghost predicate ZoomIsReset()
      reads this
    {
      scale == 1.0 && lastScale == 1.0 && translateX == 0.0 && translateY == 0.0
      && lastTranslateX == 0.0 && lastTranslateY == 0.0
    }

    constructor ()
      ensures Valid() && ZoomIsReset()
      ensures images == [] && currentIndex == 0 && !isOpen && ariaHidden
      ensures touchStartX == 0.0 && touchEndX == 0.0 && lastTap == 0 && initialDist.None?
    {
      images := [];
      currentIndex := 0;
      isOpen := false;
      ariaHidden := true;
      touchStartX := 0.0;
      touchEndX := 0.0;
      scale := 1.0;
      lastScale := 1.0;
      translateX := 0.0;
      translateY := 0.0;
      lastTranslateX := 0.0;
      lastTranslateY := 0.0;
      lastTap := 0;
      initialDist := None;
      titleText := "";
      sizeText := "";
      materialsText := "";
      descriptionText := "";
      priceText := "";
      availabilityHidden := false;
      shownSrc := "";
      navVisible := false;
      indicatorVisible := false;
      indicatorText := "";
    }

    /** `updateSlider`: shows the current slide; with no slides nothing happens. */
    method UpdateSlider()
      requires Valid()
      modifies this`shownSrc, this`navVisible, this`indicatorVisible, this`indicatorText
      ensures Valid()
      ensures |images| == 0 ==> unchanged(this)
      ensures |images| > 0 ==>
                shownSrc == images[currentIndex] && navVisible == (|images| > 1) && indicatorVisible == (|images| > 1)
      ensures |images| > 1 ==> indicatorText == IndicatorText(currentIndex, |images|)
      ensures |images| <= 1 ==> indicatorText == old(indicatorText)
      ensures SliderUpdated(old(shownSrc), old(navVisible), old(indicatorVisible), old(indicatorText))
    {
      if |images| == 0 {
        return;
      }
      shownSrc := images[currentIndex];
      navVisible := |images| > 1;
      indicatorVisible := |images| > 1;
      if |images| > 1 {
        indicatorText := IndicatorText(currentIndex, |images|);
      }
    }

    /** `setContent`: fills the dialog from the trigger's attributes. */
    method SetContent(t: Trigger, tr: string -> Option<string>)
      modifies this`titleText, this`sizeText, this`materialsText, this`descriptionText,
               this`priceText, this`availabilityHidden
      ensures titleText == t.title.GetOr("") && descriptionText == t.description.GetOr("")
      ensures sizeText == LabelLine(Strings.OrElse(tr("lightbox.size"), "Size:"), t.size)
      ensures materialsText == LabelLine(Strings.OrElse(tr("lightbox.materials"), "Materials:"), t.materials)
      ensures t.price.Some? && t.price.value != "" ==> priceText == t.price.value
      ensures t.price.None? || t.price.value == "" ==>
                priceText == Strings.OrElse(tr("lightbox.priceOnRequest"), "Price on Request")
      ensures availabilityHidden <==> t.available == Some("true")
      ensures ContentFrom(t, tr)
    {
      titleText := t.title.GetOr("");
      sizeText := LabelLine(Strings.OrElse(tr("lightbox.size"), "Size:"), t.size);
      materialsText := LabelLine(Strings.OrElse(tr("lightbox.materials"), "Materials:"), t.materials);
      descriptionText := t.description.GetOr("");
      if t.price.Some? && t.price.value != "" {
        priceText := t.price.value;
      } else {
        priceText := Strings.OrElse(tr("lightbox.priceOnRequest"), "Price on Request");
      }
      availabilityHidden := t.available == Some("true");
    }

    /** `open`. */
    method Open()
      requires Valid()
      modifies this`isOpen, this`ariaHidden, this`shownSrc, this`navVisible,
               this`indicatorVisible, this`indicatorText
      ensures Valid() && isOpen && !ariaHidden
      ensures SliderUpdated(old(shownSrc), old(navVisible), old(indicatorVisible), old(indicatorText))
    {
      isOpen := true;
      ariaHidden := false;
      UpdateSlider();
    }

    /** `openFromTrigger`: loads the trigger's slides, shows the first one and
        opens the viewer. */
    method OpenFromTrigger(t: Trigger, parse: string -> Option<seq<string>>, tr: string -> Option<string>)
      requires Valid()
      modifies this`images, this`currentIndex, this`titleText, this`sizeText, this`materialsText,
               this`descriptionText, this`priceText, this`availabilityHidden, this`isOpen,
               this`ariaHidden, this`shownSrc, this`navVisible, this`indicatorVisible, this`indicatorText
      ensures Valid() && isOpen && !ariaHidden
      ensures images == TriggerImages(t, parse) && currentIndex == 0
      ensures SliderUpdated(old(shownSrc), old(navVisible), old(indicatorVisible), old(indicatorText))
      ensures ContentFrom(t, tr)
    {
      LoadTrigger(t, parse, tr);
      Open();
    }

    /** The part of `openFromTrigger` before `open`: the slides, the first
        index and the dialog text. */
    method LoadTrigger(t: Trigger, parse: string -> Option<seq<string>>, tr: string -> Option<string>)
      modifies this`images, this`currentIndex, this`titleText, this`sizeText, this`materialsText,
               this`descriptionText, this`priceText, this`availabilityHidden
      ensures images == TriggerImages(t, parse) && currentIndex == 0
      ensures ContentFrom(t, tr)
    {
      images := TriggerImages(t, parse);
      currentIndex := 0;
      SetContent(t, tr);
    }

    /** `resetZoom`. */
    method ResetZoom()
      modifies this`scale, this`lastScale, this`translateX, this`translateY,
               this`lastTranslateX, this`lastTranslateY
      ensures ZoomIsReset()
    {
      scale := 1.0;
      lastScale := 1.0;
      translateX := 0.0;
      translateY := 0.0;
      lastTranslateX := 0.0;
      lastTranslateY := 0.0;
    }

    /** `close`: hides the viewer, forgets the slides and resets the zoom. */
    method Close()
      requires Valid()
      modifies this`isOpen, this`ariaHidden, this`images, this`currentIndex,
               this`scale, this`lastScale, this`translateX, this`translateY,
               this`lastTranslateX, this`lastTranslateY
      ensures Valid() && ZoomIsReset()
      ensures !isOpen && ariaHidden && images == [] && currentIndex == 0
    {
      isOpen := false;
      ariaHidden := true;
      images := [];
      currentIndex := 0;
      ResetZoom();
    }

    /** `showNext`. */
    method ShowNext()
      requires Valid()
      modifies this`currentIndex, this`shownSrc, this`navVisible, this`indicatorVisible, this`indicatorText
      ensures Valid()
      ensures |images| == 0 ==> unchanged(this)
      ensures |images| > 0 ==>
                currentIndex == NextIndex(old(currentIndex), |images|) && shownSrc == images[currentIndex]
      ensures SliderShows(old(indicatorText))
    {
      if |images| > 0 {
        currentIndex := NextIndex(currentIndex, |images|);
        UpdateSlider();
      }
    }

    /** `showPrevious`. */
    method ShowPrevious()
      requires Valid()
      modifies this`currentIndex, this`shownSrc, this`navVisible, this`indicatorVisible, this`indicatorText
      ensures Valid()
      ensures |images| == 0 ==> unchanged(this)
      ensures |images| > 0 ==>
                currentIndex == PrevIndex(old(currentIndex), |images|) && shownSrc == images[currentIndex]
      ensures SliderShows(old(indicatorText))
    {
      if |images| > 0 {
        currentIndex := PrevIndex(currentIndex, |images|);
        UpdateSlider();
      }
    }

    /** `handleKeyboard`: ignored while closed; Escape closes, the arrow keys
        move, other keys do nothing. */
    method HandleKeyboard(key: string)
      requires Valid()
      modifies this
      ensures Valid()
      ensures !old(isOpen) ==> unchanged(this)
      ensures old(isOpen) && key == "Escape" ==> !isOpen && images == [] && currentIndex == 0 && ZoomIsReset()
      ensures old(isOpen) && key == "ArrowLeft" && |images| > 0 ==>
                currentIndex == PrevIndex(old(currentIndex), |images|)
      ensures old(isOpen) && key == "ArrowRight" && |images| > 0 ==>
                currentIndex == NextIndex(old(currentIndex), |images|)
      ensures old(isOpen) && key != "Escape" ==> images == old(images) && isOpen
      ensures old(isOpen) && (key == "ArrowLeft" || key == "ArrowRight") ==>
                SliderShows(old(indicatorText)) && (|images| == 0 ==> unchanged(this))
      ensures old(isOpen) && key != "Escape" && key != "ArrowLeft" && key != "ArrowRight" ==> unchanged(this)
    {
      if !isOpen {
        return;
      }
      if key == "Escape" {
        Close();
      } else if key == "ArrowLeft" {
        ShowPrevious();
      } else if key == "ArrowRight" {
        ShowNext();
      }
    }

    /** `handleSwipe`. */
    method HandleSwipe()
      requires Valid()
      modifies this`currentIndex, this`shownSrc, this`navVisible, this`indicatorVisible, this`indicatorText
      ensures Valid()
      ensures SwipeAction(touchStartX, touchEndX) == Stay || |images| == 0 ==> unchanged(this)
      ensures SwipeAction(touchStartX, touchEndX) == GoNext && |images| > 0 ==>
                currentIndex == NextIndex(old(currentIndex), |images|)
      ensures SwipeAction(touchStartX, touchEndX) == GoPrevious && |images| > 0 ==>
                currentIndex == PrevIndex(old(currentIndex), |images|)
      ensures SwipeAction(touchStartX, touchEndX) != Stay ==> SliderShows(old(indicatorText))
    {
      match SwipeAction(touchStartX, touchEndX)
      case Stay =>
      case GoNext => ShowNext();
      case GoPrevious => ShowPrevious();
    }

    /** `handleTouchStart` with the number of touches and the first one's x. */
    method TouchStart(touches: nat, firstX: real)
      requires Valid()
      modifies this`lastScale, this`initialDist, this`touchStartX
      ensures Valid()
      ensures touches == 2 ==> lastScale == scale && initialDist.None? && touchStartX == old(touchStartX)
      ensures touches == 1 ==> touchStartX == firstX && unchanged(this`lastScale, this`initialDist)
      ensures touches != 1 && touches != 2 ==> unchanged(this)
    {
      if touches == 2 {
        lastScale := scale;
        initialDist := None;
      } else if touches == 1 {
        touchStartX := firstX;
      }
    }

    /** `handleTouchMove`: with two fingers the first move records their
        distance and later moves scale by the distance ratio, clamped to the
        zoom limits; with one finger on a zoomed image it pans. */
    method TouchMove(touches: nat, dist: real, firstX: real)
      requires Valid() && dist >= 0.0
      modifies this`initialDist, this`scale, this`translateX
      ensures Valid()
      ensures touches == 2 && (old(initialDist).None? || old(initialDist).value == 0.0) ==>
                initialDist == Some(dist) && scale == old(scale)
      ensures touches == 2 && old(initialDist).Some? && old(initialDist).value != 0.0 ==>
                scale == ClampZoom(lastScale * (dist / old(initialDist).value)) && initialDist == old(initialDist)
      ensures touches == 1 && old(scale) > 1.0 ==>
                translateX == lastTranslateX + (firstX - touchStartX) / old(scale) && scale == old(scale)
      ensures touches != 2 ==> initialDist == old(initialDist) && scale == old(scale)
      ensures !(touches == 1 && old(scale) > 1.0) ==> translateX == old(translateX)
    {
      if touches == 2 {
        if initialDist.None? || initialDist.value == 0.0 {
          initialDist := Some(dist);
        } else {
          scale := ClampZoom(lastScale * (dist / initialDist.value));
        }
      } else if touches == 1 && scale > 1.0 {
        translateX := lastTranslateX + (firstX - touchStartX) / scale;
      }
    }

    /** The last finger lifted: the pinch ends, the pan is kept, and a scale
        below 1.1 snaps back to no zoom. */
    method EndGesture()
      requires Valid()
      modifies this`initialDist, this`scale, this`lastScale, this`translateX, this`translateY,
               this`lastTranslateX, this`lastTranslateY
      ensures Valid() && initialDist.None?
      ensures old(scale) < 1.1 ==> ZoomIsReset()
      ensures old(scale) >= 1.1 ==>
                lastTranslateX == old(translateX) && lastTranslateY == old(translateY)
                && unchanged(this`scale, this`lastScale, this`translateX, this`translateY)
    {
      initialDist := None;
      lastTranslateX := translateX;
      lastTranslateY := translateY;
      if scale < 1.1 {
        ResetZoom();
      }
    }

    /** `handleTouchEnd`: `hasTouches` says whether the event carries a touch
        list, `remaining` how many fingers stay down and `changedX` the x of
        the first lifted finger. When the last finger lifts the pan is saved
        and a zoom below 1.1 snaps back to 1; a swipe counts only unzoomed. */
    method TouchEnd(hasTouches: bool, remaining: nat, changedX: Option<real>)
      requires Valid()
      modifies this`initialDist, this`scale, this`lastScale, this`translateX, this`translateY,
               this`lastTranslateX, this`lastTranslateY, this`touchEndX,
               this`currentIndex, this`shownSrc, this`navVisible, this`indicatorVisible, this`indicatorText
      ensures Valid()
      ensures !hasTouches ==> unchanged(this)
      ensures hasTouches && remaining == 0 && old(scale) < 1.1 ==> ZoomIsReset()
      ensures hasTouches && remaining == 0 && old(scale) >= 1.1 ==>
                lastTranslateX == old(translateX) && lastTranslateY == old(translateY) && scale == old(scale)
      ensures hasTouches && remaining == 0 ==> initialDist.None?
      ensures hasTouches && remaining != 0 ==> scale == old(scale)
      ensures hasTouches && changedX.Some? && scale == 1.0 ==> touchEndX == changedX.value
      ensures !(hasTouches && changedX.Some? && scale == 1.0) ==> touchEndX == old(touchEndX)
      ensures hasTouches && changedX.Some? && scale == 1.0 && |images| > 0 ==>
                currentIndex == match SwipeAction(touchStartX, changedX.value)
                                case Stay => old(currentIndex)
                                case GoNext => NextIndex(old(currentIndex), |images|)
                                case GoPrevious => PrevIndex(old(currentIndex), |images|)
      ensures hasTouches && (changedX.None? || scale != 1.0) ==> currentIndex == old(currentIndex)
      ensures hasTouches && changedX.Some? && scale == 1.0 && SwipeAction(touchStartX, changedX.value) != Stay ==>
                SliderShows(old(indicatorText))
      ensures !(hasTouches && changedX.Some? && scale == 1.0 && SwipeAction(touchStartX, changedX.value) != Stay) ==>
                unchanged(this`shownSrc, this`navVisible, this`indicatorVisible, this`indicatorText)
    {
      if !hasTouches {
        return;
      }
      if remaining == 0 {
        EndGesture();
      }
      if changedX.Some? && scale == 1.0 {
        touchEndX := changedX.value;
        HandleSwipe();
      }
    }

    /** `handleDoubleTap` at time `now`: a second tap within 300 ms zooms an
        unzoomed image to 2 (panning by `panX`, `panY`, computed by the page
        from the tap position) and resets a zoomed one. */
    method DoubleTap(now: int, panX: real, panY: real)
      requires Valid()
      modifies this`scale, this`lastScale, this`translateX, this`translateY,
               this`lastTranslateX, this`lastTranslateY, this`lastTap
      ensures Valid() && lastTap == now
      ensures var gap := now - old(lastTap);
        (0 < gap < DoubleTapDelay && old(scale) == 1.0 ==>
           scale == 2.0 && translateX == panX && translateY == panY && lastScale == old(lastScale))
        && (0 < gap < DoubleTapDelay && old(scale) != 1.0 ==> ZoomIsReset())
        && (!(0 < gap < DoubleTapDelay) ==> scale == old(scale) && translateX == old(translateX)
                                            && translateY == old(translateY) && lastScale == old(lastScale))
    {
      var gap := now - lastTap;
      if gap < DoubleTapDelay && gap > 0 {
        if scale == 1.0 {
          scale := 2.0;
          translateX := panX;
          translateY := panY;
        } else {
          ResetZoom();
        }
      }
      lastTap := now;
    }

    /** `handleInquiry`: stores the inquiry text for the contact page (a store
        that refuses the write is ignored) and returns the page to go to. */
    method HandleInquiry(store: WebStorage.Store) returns (next: string)
      modifies store`items
      ensures next == "contact.html"
      ensures var written := old(store.items)[InquiryKey := InquiryMessage(titleText, sizeText)];
              store.items == if store.available && store.fits(written) then written else old(store.items)
    {
      if store.available && store.fits(store.items[InquiryKey := InquiryMessage(titleText, sizeText)]) {
        store.items := store.items[InquiryKey := InquiryMessage(titleText, sizeText)];
      }
      next := "contact.html";
    }
  }
}
