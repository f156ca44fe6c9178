/** docs/js/main.js: the older page script that predates the component
    modules. Its lightbox keeps the same state as the component viewer in
    closure variables, but differs in small ways: a malformed `data-images`
    list aborts the click handler, missing size or materials read
    "undefined", a two-finger touch does not clear the pinch distance, and
    the swipe test is written as two independent `if`s. Its theme toggle
    applies any stored value verbatim. `JSON.parse`, `window.getTranslation`
    and `localStorage` are parameters. */
module LegacyMain {
  import opened Wrappers
  import Strings
  import WebStorage
  import Lightbox
  import Menu
  import ThemeInit

  const ThemeKey: string := "theme"

  /** The slides a click loads: the parsed `data-images` list, or the single
      `data-img` when the attribute is missing or empty. `None` when the list
      is not valid JSON, in which case `JSON.parse` throws and the handler
      stops before changing anything else. */
  function OpenedImages(t: Lightbox.Trigger, parse: string -> Option<seq<string>>): (r: Option<seq<string>>)
    ensures t.images.None? || t.images.value == "" ==> r == Some([t.img])
    ensures t.images.Some? && t.images.value != "" ==> r == parse(t.images.value)
  {
    if t.images.Some? && t.images.value != "" then parse(t.images.value) else Some([t.img])
  }

  /** Where the component viewer falls back to `data-img` on a malformed
      list, this script gives up; on every other trigger the two agree. */
  lemma OpenedImagesAgreeWithComponent(t: Lightbox.Trigger, parse: string -> Option<seq<string>>)
    ensures OpenedImages(t, parse).Some? ==> OpenedImages(t, parse).value == Lightbox.TriggerImages(t, parse)
    ensures OpenedImages(t, parse).None? <==> t.images.Some? && t.images.value != "" && parse(t.images.value).None?
  {
  }

  /** `${label} ${value}`: a missing attribute prints as "undefined". */
  function LabelLine(caption: string, value: Option<string>): (line: string)
    ensures value.Some? ==> line == caption + " " + value.value
    ensures value.None? ==> line == caption + " undefined"
  {
    caption + " " + (if value.Some? then value.value else "undefined")
  }

  /** `window.getTranslation ? window.getTranslation(key) : fallback`. */
  function Caption(tr: Option<string -> string>, key: string, fallback: string): string {
    if tr.Some? then tr.value(key) else fallback
  }

  /** `Image ${currentIndex + 1} of ${currentImages.length}: ${title}`, the
      text announced to screen readers on every slide change. */
  function Announcement(i: nat, n: nat, title: string): string {
    "Image " + Strings.NatToString(i + 1) + " of " + Strings.NatToString(n) + ": " + title
  }

  /** What `handleSwipe`'s two `if`s do: the first shows the next slide, the
      second the previous one. */
  datatype SwipeMoves = SwipeMoves(next: bool, previous: bool)

  function SwipeMovesOf(startX: real, endX: real): (m: SwipeMoves)
    ensures m.next <==> endX < startX - Lightbox.SwipeThreshold
    ensures m.previous <==> endX > startX + Lightbox.SwipeThreshold
  {
    SwipeMoves(endX < startX - Lightbox.SwipeThreshold, endX > startX + Lightbox.SwipeThreshold)
  }

  /** The two tests never both hold, and together they make the same
      decision as the component's `handleSwipe`. */
  lemma SwipeMovesAgree(startX: real, endX: real)
    ensures !(SwipeMovesOf(startX, endX).next && SwipeMovesOf(startX, endX).previous)
    ensures SwipeMovesOf(startX, endX).next <==> Lightbox.SwipeAction(startX, endX) == Lightbox.GoNext
    ensures SwipeMovesOf(startX, endX).previous <==> Lightbox.SwipeAction(startX, endX) == Lightbox.GoPrevious
  {
    Lightbox.SwipeActionCases(startX, endX);
  }

  /** With the English caption the inquiry carries the bare size, and a
      missing size becomes the word "undefined". */
  lemma InquiryFromLegacySize(titleText: string, size: Option<string>)
    ensures size.Some? ==>
      Lightbox.InquiryMessage(titleText, LabelLine("Size:", size))
      == Lightbox.InquiryMessage(titleText, Lightbox.LabelLine("Size:", size))
    ensures size.None? ==>
      Lightbox.InquiryMessage(titleText, LabelLine("Size:", size))
      == Lightbox.InquiryMessage(titleText, Lightbox.LabelLine("Size:", Some("undefined")))
  {
  }

  /** The legacy lightbox's closure variables and the dialog fields it writes. */
  class LegacyLightbox {
    var images: seq<string>
    var currentIndex: nat
    /** `lightbox.style.display === 'flex'`. */
    var shown: bool
    var ariaHidden: bool
    var titleText: string
    var sizeText: string
    var materialsText: string
    var descriptionText: string
    var shownSrc: string
    var shownAlt: string
    var navVisible: bool
    var indicatorVisible: bool
    var indicatorText: string
    /** The screen-reader announcements made so far, oldest first. */
    var announcements: seq<string>
    var touchStartX: real
    var touchEndX: real
    var scale: real
    var lastScale: real
    var translateX: real
    var translateY: real
    var lastTranslateX: real
    var lastTranslateY: real
    var lastTap: int
    /** `this.initialDist` on the image element. */
    var initialDist: Option<real>

    ghost predicate Valid()
      reads this
    {
      (|images| > 0 ==> currentIndex < |images|)
      && (|images| == 0 ==> currentIndex == 0)
      && Lightbox.ZoomMin <= scale <= Lightbox.ZoomMax
      && Lightbox.ZoomMin <= lastScale <= Lightbox.ZoomMax
      && (initialDist.Some? ==> initialDist.value >= 0.0)
    }

    ghost predicate ZoomIsReset()
      reads this
    {
      scale == 1.0 && lastScale == 1.0 && translateX == 0.0 && translateY == 0.0
      && lastTranslateX == 0.0 && lastTranslateY == 0.0
    }

    /** The slider as `updateSlider` leaves it for the current slide, from
        the indicator text `text0` and announcements `ann0` it found: the
        slide and its title shown, navigation and indicator for several
        slides, and the change announced. */
    ghost predicate SliderShows(text0: string, ann0: seq<string>)
      reads this`images, this`currentIndex, this`titleText, this`shownSrc, this`shownAlt,
            this`navVisible, this`indicatorVisible, this`indicatorText, this`announcements
    {
      |images| > 0 && currentIndex < |images| ==>
        shownSrc == images[currentIndex] && shownAlt == titleText
        && navVisible == (|images| > 1) && indicatorVisible == (|images| > 1)
        && indicatorText == (if |images| > 1 then Lightbox.IndicatorText(currentIndex, |images|) else text0)
        && announcements == ann0 + [Announcement(currentIndex, |images|, titleText)]
    }

    /** `initializeLightbox` on a page with a lightbox and gallery items. */
    constructor ()
      ensures Valid() && ZoomIsReset()
      ensures images == [] && currentIndex == 0 && !shown && announcements == []
      ensures touchStartX == 0.0 && touchEndX == 0.0 && lastTap == 0 && initialDist.None?
    {
      images := [];
      currentIndex := 0;
      shown := false;
      ariaHidden := true;
      titleText := "";
      sizeText := "";
      materialsText := "";
      descriptionText := "";
      shownSrc := "";
      shownAlt := "";
      navVisible := false;
      indicatorVisible := false;
      indicatorText := "";
      announcements := [];
      touchStartX := 0.0;
      touchEndX := 0.0;
      scale := 1.0;
      lastScale := 1.0;
      translateX := 0.0;
      translateY := 0.0;
      lastTranslateX := 0.0;
      lastTranslateY := 0.0;
      lastTap := 0;
      initialDist := None;
    }

    /** `updateSlider`: shows the current slide, one button pair and an
        indicator for several slides, and announces the change; with no
        slides nothing happens. */
    method UpdateSlider()
      requires Valid()
      modifies this`shownSrc, this`shownAlt, this`navVisible, this`indicatorVisible,
               this`indicatorText, this`announcements
      ensures Valid()
      ensures |images| == 0 ==>
                shownSrc == old(shownSrc) && shownAlt == old(shownAlt) && navVisible == old(navVisible)
                && indicatorVisible == old(indicatorVisible) && announcements == old(announcements)
      ensures |images| > 0 ==>
                shownSrc == images[currentIndex] && shownAlt == titleText
                && navVisible == (|images| > 1) && indicatorVisible == (|images| > 1)
                && announcements == old(announcements) + [Announcement(currentIndex, |images|, titleText)]
      ensures |images| > 1 ==> indicatorText == Lightbox.IndicatorText(currentIndex, |images|)
      ensures |images| <= 1 ==> indicatorText == old(indicatorText)
      ensures SliderShows(old(indicatorText), old(announcements))
    {
      if |images| == 0 {
        return;
      }
      shownSrc := images[currentIndex];
      shownAlt := titleText;
      navVisible := |images| > 1;
      if |images| > 1 {
        indicatorText := Lightbox.IndicatorText(currentIndex, |images|);
        indicatorVisible := true;
      } else {
        indicatorVisible := false;
      }
      announcements := announcements + [Announcement(currentIndex, |images|, titleText)];
    }

    /** `showNext`: the following slide, wrapping; nothing without slides. */
    method ShowNext()
      requires Valid()
      modifies this`currentIndex, this`shownSrc, this`shownAlt, this`navVisible,
               this`indicatorVisible, this`indicatorText, this`announcements
      ensures Valid() && images == old(images)
      ensures |images| == 0 ==> unchanged(this)
      ensures |images| > 0 ==>
                currentIndex == Lightbox.NextIndex(old(currentIndex), |images|)
                && shownSrc == images[currentIndex]
      ensures SliderShows(old(indicatorText), old(announcements))
    {
      if |images| > 0 {
        Lightbox.NextPrevInverse(currentIndex, |images|);
        currentIndex := Lightbox.NextIndex(currentIndex, |images|);
        UpdateSlider();
      }
    }

    /** `showPrev`: the preceding slide, wrapping; nothing without slides. */
    method ShowPrev()
      requires Valid()
      modifies this`currentIndex, this`shownSrc, this`shownAlt, this`navVisible,
               this`indicatorVisible, this`indicatorText, this`announcements
      ensures Valid() && images == old(images)
      ensures |images| == 0 ==> unchanged(this)
      ensures |images| > 0 ==>
                currentIndex == Lightbox.PrevIndex(old(currentIndex), |images|)
                && shownSrc == images[currentIndex]
      ensures SliderShows(old(indicatorText), old(announcements))
    {
      if |images| > 0 {
        Lightbox.NextPrevInverse(currentIndex, |images|);
        currentIndex := Lightbox.PrevIndex(currentIndex, |images|);
        UpdateSlider();
      }
    }

    /** The dialog shows the trigger's title and description, and its size
        and materials behind their labels. */
    ghost predicate DialogFilled(t: Lightbox.Trigger, tr: Option<string -> string>)
      reads this`titleText, this`sizeText, this`materialsText, this`descriptionText
    {
      titleText == t.title.GetOr("") && descriptionText == t.description.GetOr("")
      && sizeText == LabelLine(Caption(tr, "lightbox.size", "Size:"), t.size)
      && materialsText == LabelLine(Caption(tr, "lightbox.materials", "Materials:"), t.materials)
    }

    /** The text fields a click writes from the trigger's attributes. */
    method FillDialog(t: Lightbox.Trigger, tr: Option<string -> string>)
      modifies this`titleText, this`sizeText, this`materialsText, this`descriptionText
      ensures DialogFilled(t, tr)
    {
      titleText := t.title.GetOr("");
      sizeText := LabelLine(Caption(tr, "lightbox.size", "Size:"), t.size);
      materialsText := LabelLine(Caption(tr, "lightbox.materials", "Materials:"), t.materials);
      descriptionText := t.description.GetOr("");
    }

    /** The rest of the click handler once the slides are known: index 0,
        the dialog text, the first slide, and the dialog shown. */
    method ShowItem(slides: seq<string>, t: Lightbox.Trigger, tr: Option<string -> string>)
      requires Valid()
      modifies this`images, this`currentIndex, this`titleText, this`sizeText, this`materialsText,
               this`descriptionText, this`shown, this`ariaHidden, this`shownSrc, this`shownAlt,
               this`navVisible, this`indicatorVisible, this`indicatorText, this`announcements
      ensures Valid()
      ensures images == slides && currentIndex == 0 && shown && !ariaHidden
      ensures DialogFilled(t, tr)
      ensures |slides| > 0 ==> shownSrc == slides[0]
      ensures SliderShows(old(indicatorText), old(announcements))
    {
      ghost var text0, ann0 := indicatorText, announcements;
      LoadItem(slides, t, tr);
      UpdateSlider();
      assert SliderShows(text0, ann0);
      Reveal();
    }

    /** `lightbox.style.display = 'flex'` and `aria-hidden="false"`. */
    method Reveal()
      requires Valid()
      modifies this`shown, this`ariaHidden
      ensures Valid() && shown && !ariaHidden
    {
      shown := true;
      ariaHidden := false;
    }

    /** The click handler's assignments before `updateSlider`: the slides
        from index 0 and the dialog text. */
    method LoadItem(slides: seq<string>, t: Lightbox.Trigger, tr: Option<string -> string>)
      requires Valid()
      modifies this`images, this`currentIndex, this`titleText, this`sizeText, this`materialsText,
               this`descriptionText
      ensures Valid() && images == slides && currentIndex == 0 && DialogFilled(t, tr)
    {
      images := slides;
      currentIndex := 0;
      FillDialog(t, tr);
    }

    /** The click handler of a gallery item: loads its slides at index 0,
        fills the dialog and shows it. A malformed `data-images` list throws
        inside the handler, which then changes nothing. */
    method OpenItem(t: Lightbox.Trigger, parse: string -> Option<seq<string>>, tr: Option<string -> string>)
      requires Valid()
      modifies this`images, this`currentIndex, this`titleText, this`sizeText, this`materialsText,
               this`descriptionText, this`shown, this`ariaHidden, this`shownSrc, this`shownAlt,
               this`navVisible, this`indicatorVisible, this`indicatorText, this`announcements
      ensures Valid()
      ensures OpenedImages(t, parse).None? ==> unchanged(this)
      ensures OpenedImages(t, parse).Some? ==>
                images == OpenedImages(t, parse).value && currentIndex == 0 && shown && !ariaHidden
      ensures OpenedImages(t, parse).Some? ==> DialogFilled(t, tr)
      ensures OpenedImages(t, parse).Some? && |images| > 0 ==> shownSrc == images[0]
      ensures OpenedImages(t, parse).Some? ==> SliderShows(old(indicatorText), old(announcements))
    {
      var loaded := OpenedImages(t, parse);
      if loaded.Some? {
        ShowItem(loaded.value, t, tr);
      }
    }

    /** `resetZoom`. */
    method ResetZoom()
      modifies this`scale, this`lastScale, this`translateX, this`translateY,
               this`lastTranslateX, this`lastTranslateY
      ensures ZoomIsReset()
    {
      scale := 1.0;
      lastScale := 1.0;
      translateX := 0.0;
      translateY := 0.0;
      lastTranslateX := 0.0;
      lastTranslateY := 0.0;
    }

    /** `close`: hides the dialog, forgets the slides and resets the zoom. */
    method Close()
      requires Valid()
      modifies this`shown, this`ariaHidden, this`images, this`currentIndex, this`scale, this`lastScale,
               this`translateX, this`translateY, this`lastTranslateX, this`lastTranslateY
      ensures Valid() && ZoomIsReset()
      ensures !shown && ariaHidden && images == [] && currentIndex == 0
    {
      shown := false;
      ariaHidden := true;
      images := [];
      currentIndex := 0;
      ResetZoom();
    }

    /** The document keydown listener: Escape closes, the arrows move, and
        only while the dialog is shown. */
    method KeyDown(key: string)
      requires Valid()
      modifies this
      ensures Valid()
      ensures !old(shown) ==> unchanged(this)
      ensures old(shown) && key == "Escape" ==>
                !shown && images == [] && currentIndex == 0 && ZoomIsReset()
      ensures old(shown) && key == "ArrowLeft" && |images| > 0 ==>
                currentIndex == Lightbox.PrevIndex(old(currentIndex), |images|)
      ensures old(shown) && key == "ArrowRight" && |images| > 0 ==>
                currentIndex == Lightbox.NextIndex(old(currentIndex), |images|)
      ensures old(shown) && key != "Escape" ==> images == old(images) && shown
      ensures old(shown) && (key == "ArrowLeft" || key == "ArrowRight") ==>
                SliderShows(old(indicatorText), old(announcements)) && (|images| == 0 ==> unchanged(this))
      ensures old(shown) && key != "Escape" && key != "ArrowLeft" && key != "ArrowRight" ==> unchanged(this)
    {
      if key == "Escape" && shown {
        Close();
      } else if key == "ArrowLeft" && shown {
        ShowPrev();
      } else if key == "ArrowRight" && shown {
        ShowNext();
      }
    }

    /** `handleSwipe`: two independent tests against the threshold; at most
        one of them holds, so the slide moves at most once and in the
        direction the component viewer would choose. */
    method HandleSwipe()
      requires Valid()
      modifies this`currentIndex, this`shownSrc, this`shownAlt, this`navVisible,
               this`indicatorVisible, this`indicatorText, this`announcements
      ensures Valid() && images == old(images)
      ensures Lightbox.SwipeAction(touchStartX, touchEndX) == Lightbox.Stay || |images| == 0 ==> unchanged(this)
      ensures Lightbox.SwipeAction(touchStartX, touchEndX) == Lightbox.GoNext && |images| > 0 ==>
                currentIndex == Lightbox.NextIndex(old(currentIndex), |images|)
      ensures Lightbox.SwipeAction(touchStartX, touchEndX) == Lightbox.GoPrevious && |images| > 0 ==>
                currentIndex == Lightbox.PrevIndex(old(currentIndex), |images|)
      ensures Lightbox.SwipeAction(touchStartX, touchEndX) != Lightbox.Stay ==>
                SliderShows(old(indicatorText), old(announcements))
    {
      SwipeMovesAgree(touchStartX, touchEndX);
      if touchEndX < touchStartX - Lightbox.SwipeThreshold {
        ShowNext();
      }
      if touchEndX > touchStartX + Lightbox.SwipeThreshold {
        ShowPrev();
      }
    }

    /** `handleTouchStart`: two fingers remember the scale, one the start of
        a swipe; unlike the component the pinch distance is kept. */
    method TouchStart(touches: nat, firstX: real)
      requires Valid()
      modifies this`lastScale, this`touchStartX
      ensures Valid()
      ensures touches == 2 ==> lastScale == scale && touchStartX == old(touchStartX)
      ensures touches == 1 ==> touchStartX == firstX && lastScale == old(lastScale)
      ensures touches != 1 && touches != 2 ==> unchanged(this)
    {
      if touches == 2 {
        lastScale := scale;
      } else if touches == 1 {
        touchStartX := firstX;
      }
    }

    /** `handleTouchMove`: the first two-finger move records the distance,
        later ones scale by the distance ratio clamped to [1, 4]; one finger
        on a zoomed image pans. */
    method TouchMove(touches: nat, dist: real, firstX: real)
      requires Valid() && dist >= 0.0
      modifies this`initialDist, this`scale, this`translateX
      ensures Valid()
      ensures touches == 2 && (old(initialDist).None? || old(initialDist).value == 0.0) ==>
                initialDist == Some(dist) && scale == old(scale)
      ensures touches == 2 && old(initialDist).Some? && old(initialDist).value != 0.0 ==>
                scale == Lightbox.ClampZoom(lastScale * (dist / old(initialDist).value))
                && initialDist == old(initialDist)
      ensures touches == 1 && old(scale) > 1.0 ==>
                translateX == lastTranslateX + (firstX - touchStartX) / old(scale) && scale == old(scale)
      ensures touches != 2 ==> initialDist == old(initialDist) && scale == old(scale)
      ensures !(touches == 1 && old(scale) > 1.0) ==> translateX == old(translateX)
    {
      if touches == 2 {
        if initialDist.None? || initialDist.value == 0.0 {
          initialDist := Some(dist);
        } else {
          scale := Lightbox.ClampZoom(lastScale * (dist / initialDist.value));
        }
      } else if touches == 1 && scale > 1.0 {
        translateX := lastTranslateX + (firstX - touchStartX) / scale;
      }
    }

    /** `handleTouchEnd`: `remaining` fingers stay down and `changedX` is the
        first lifted one. The last finger ends the pinch, keeps the pan and
        snaps a zoom below 1.1 back to 1; an unzoomed lift is a swipe. */
    method TouchEnd(remaining: nat, changedX: Option<real>)
      requires Valid()
      modifies this`initialDist, this`scale, this`lastScale, this`translateX, this`translateY,
               this`lastTranslateX, this`lastTranslateY, this`touchEndX, this`currentIndex,
               this`shownSrc, this`shownAlt, this`navVisible, this`indicatorVisible,
               this`indicatorText, this`announcements
      ensures Valid() && images == old(images)
      ensures remaining == 0 ==> initialDist.None?
      ensures remaining == 0 && old(scale) < 1.1 ==> ZoomIsReset()
      ensures remaining == 0 && old(scale) >= 1.1 ==>
                lastTranslateX == old(translateX) && lastTranslateY == old(translateY) && scale == old(scale)
      ensures remaining != 0 ==> scale == old(scale) && initialDist == old(initialDist)
      ensures changedX.Some? && scale == 1.0 ==> touchEndX == changedX.value
      ensures !(changedX.Some? && scale == 1.0) ==> touchEndX == old(touchEndX) && currentIndex == old(currentIndex)
      ensures changedX.Some? && scale == 1.0 && |images| > 0 ==>
                currentIndex == match Lightbox.SwipeAction(touchStartX, changedX.value)
                                case Stay => old(currentIndex)
                                case GoNext => Lightbox.NextIndex(old(currentIndex), |images|)
                                case GoPrevious => Lightbox.PrevIndex(old(currentIndex), |images|)
      ensures changedX.Some? && scale == 1.0 && Lightbox.SwipeAction(touchStartX, changedX.value) != Lightbox.Stay ==>
                SliderShows(old(indicatorText), old(announcements))
      ensures !(changedX.Some? && scale == 1.0 && Lightbox.SwipeAction(touchStartX, changedX.value) != Lightbox.Stay) ==>
                unchanged(this`shownSrc, this`shownAlt, this`navVisible, this`indicatorVisible, this`indicatorText, this`announcements)
    {
      if remaining == 0 {
        initialDist := None;
        lastTranslateX := translateX;
        lastTranslateY := translateY;
        if scale < 1.1 {
          ResetZoom();
        }
      }
      if changedX.Some? && scale == 1.0 {
        touchEndX := changedX.value;
        HandleSwipe();
      }
    }

    /** A swipe on the dark area around the image: the touch positions are
        taken whatever the zoom. */
    method BackdropSwipe(startX: real, endX: real)
      requires Valid()
      modifies this`touchStartX, this`touchEndX, this`currentIndex, this`shownSrc, this`shownAlt,
               this`navVisible, this`indicatorVisible, this`indicatorText, this`announcements
      ensures Valid() && images == old(images)
      ensures touchStartX == startX && touchEndX == endX
      ensures Lightbox.SwipeAction(startX, endX) == Lightbox.Stay || |images| == 0 ==>
                currentIndex == old(currentIndex)
      ensures Lightbox.SwipeAction(startX, endX) == Lightbox.GoNext && |images| > 0 ==>
                currentIndex == Lightbox.NextIndex(old(currentIndex), |images|)
      ensures Lightbox.SwipeAction(startX, endX) == Lightbox.GoPrevious && |images| > 0 ==>
                currentIndex == Lightbox.PrevIndex(old(currentIndex), |images|)
      ensures Lightbox.SwipeAction(startX, endX) != Lightbox.Stay ==> SliderShows(old(indicatorText), old(announcements))
      ensures Lightbox.SwipeAction(startX, endX) == Lightbox.Stay ==>
                unchanged(this`shownSrc, this`shownAlt, this`navVisible, this`indicatorVisible, this`indicatorText, this`announcements)
    {
      touchStartX := startX;
      touchEndX := endX;
      HandleSwipe();
    }

    /** `handleDoubleTap` at time `now`: a second tap within 300 ms zooms an
        unzoomed image to 2 (panning by `panX`, `panY`, which the page derives
        from the tap position) and resets a zoomed one. */
    method DoubleTap(now: int, panX: real, panY: real)
      requires Valid()
      modifies this`scale, this`lastScale, this`translateX, this`translateY,
               this`lastTranslateX, this`lastTranslateY, this`lastTap
      ensures Valid() && lastTap == now
      ensures var gap := now - old(lastTap);
        (0 < gap < Lightbox.DoubleTapDelay && old(scale) == 1.0 ==>
           scale == 2.0 && translateX == panX && translateY == panY && lastScale == old(lastScale))
        && (0 < gap < Lightbox.DoubleTapDelay && old(scale) != 1.0 ==> ZoomIsReset())
        && (!(0 < gap < Lightbox.DoubleTapDelay) ==>
              scale == old(scale) && translateX == old(translateX) && translateY == old(translateY))
    {
      var gap := now - lastTap;
      if gap < Lightbox.DoubleTapDelay && gap > 0 {
        if scale == 1.0 {
          scale := 2.0;
          translateX := panX;
          translateY := panY;
        } else {
          ResetZoom();
        }
      }
      lastTap := now;
    }

    /** The inquiry button: writes the message straight to `localStorage`
        and goes to the contact page. A store that throws stops the handler
        before the navigation, so then there is no next page. */
    method Inquire(store: WebStorage.Store) returns (next: Option<string>)
      modifies store`items
      ensures var written := old(store.items)[Lightbox.InquiryKey := Lightbox.InquiryMessage(titleText, sizeText)];
        if store.available && store.fits(written) then store.items == written && next == Some("contact.html")
        else store.items == old(store.items) && next.None?
    {
      var written := store.items[Lightbox.InquiryKey := Lightbox.InquiryMessage(titleText, sizeText)];
      if !(store.available && store.fits(written)) {
        return None;
      }
      store.items := written;
      next := Some("contact.html");
    }
  }

  /** `String(flag)`, as `setAttribute` writes a boolean. */
  function BoolText(b: bool): string {
    if b then "true" else "false"
  }

  datatype Focus = Untouched | ToggleButton | FirstLink

  /** `initializeMobileMenu`: three independently toggled `active` classes,
      the ARIA attributes, the body scroll lock and the header title. */
  class LegacyMobileMenu {
    var toggleActive: bool
    var navActive: bool
    var overlayActive: bool
    var ariaExpanded: string
    var navAriaHidden: string
    var bodyOverflowHidden: bool
    var bodyMenuOpen: bool
    /** Where focus goes (the first link after the 100 ms delay). */
    var focus: Focus
    const pageTitle: string
    const pageTitleKey: string
    /** Whether the drawer holds a link (`querySelector('a')`). */
    const hasLink: bool

    /** The three classes move together, and the attributes, the scroll lock
        and the body class follow the drawer. */
    ghost predicate Synced()
      reads this
    {
      toggleActive == navActive && overlayActive == navActive
      && ariaExpanded == BoolText(navActive) && navAriaHidden == BoolText(!navActive)
      && bodyOverflowHidden == navActive && bodyMenuOpen == navActive
    }

    /** On a page whose toggle, drawer and overlay exist, served at
        `pathname`; `hasLink` says whether the drawer holds a link. */
    constructor (pathname: string, hasLink: bool)
      ensures Synced() && !navActive && focus == Untouched
      ensures pageTitle == Menu.PageTitle(pathname) && pageTitleKey == Menu.TitleKey(pageTitle)
      ensures this.hasLink == hasLink
    {
      this.hasLink := hasLink;
      toggleActive := false;
      navActive := false;
      overlayActive := false;
      ariaExpanded := "false";
      navAriaHidden := "true";
      bodyOverflowHidden := false;
      bodyMenuOpen := false;
      focus := Untouched;
      pageTitle := Menu.PageTitle(pathname);
      pageTitleKey := Menu.TitleKey(Menu.PageTitle(pathname));
    }

    /** `toggleMobileMenu`: flips the three classes and sets everything else
        from the drawer's new state. Opening focuses the first link when
        the drawer has one and leaves focus alone otherwise. */
    method Toggle()
      modifies this
      ensures navActive == !old(navActive)
      ensures toggleActive == !old(toggleActive) && overlayActive == !old(overlayActive)
      ensures ariaExpanded == BoolText(navActive) && navAriaHidden == BoolText(!navActive)
      ensures bodyOverflowHidden == navActive && bodyMenuOpen == navActive
      ensures navActive && hasLink ==> focus == FirstLink
      ensures navActive && !hasLink ==> focus == old(focus)
      ensures !navActive ==> focus == ToggleButton
      ensures old(Synced()) ==> Synced()
    {
      var willBeActive := !navActive;
      toggleActive := !toggleActive;
      navActive := !navActive;
      overlayActive := !overlayActive;
      ariaExpanded := BoolText(willBeActive);
      navAriaHidden := BoolText(!willBeActive);
      bodyOverflowHidden := willBeActive;
      bodyMenuOpen := willBeActive;
      if !willBeActive {
        focus := ToggleButton;
      } else if hasLink {
        focus := FirstLink;
      }
    }

    /** `closeMobileMenu` (overlay click, nav link click): everything off. */
    method Close()
      modifies this
      ensures Synced() && !navActive && focus == ToggleButton
    {
      toggleActive := false;
      navActive := false;
      overlayActive := false;
      ariaExpanded := "false";
      navAriaHidden := "true";
      bodyOverflowHidden := false;
      bodyMenuOpen := false;
      focus := ToggleButton;
    }

    /** Escape closes an open drawer and is ignored otherwise. */
    method KeyDown(key: string)
      modifies this
      ensures key == "Escape" && old(navActive) ==> Synced() && !navActive && focus == ToggleButton
      ensures !(key == "Escape" && old(navActive)) ==> unchanged(this)
    {
      if key == "Escape" && navActive {
        Close();
      }
    }
  }

  /** The theme applied on load: whatever the store holds, if anything but
      the empty string, otherwise the system preference. */
  function InitialTheme(stored: Option<string>, hasMatchMedia: bool, prefersDark: bool): (theme: string)
    ensures stored.Some? && stored.value != "" ==> theme == stored.value
    ensures stored.None? || stored.value == "" ==> theme == ThemeInit.SystemTheme(hasMatchMedia, prefersDark)
  {
    if stored.Some? && stored.value != "" then stored.value else ThemeInit.SystemTheme(hasMatchMedia, prefersDark)
  }

  /** `attr === 'dark' ? 'light' : 'dark'`. */
  function Flipped(theme: string): (next: string)
    ensures next == ThemeInit.Light <==> theme == ThemeInit.Dark
    ensures next == ThemeInit.Dark <==> theme != ThemeInit.Dark
  {
    if theme == ThemeInit.Dark then ThemeInit.Light else ThemeInit.Dark
  }

  /** Two clicks return to the start from either theme; from any other
      value (a foreign stored string) the first click lands on dark. */
  lemma FlipTwice(theme: string)
    ensures theme == ThemeInit.Dark || theme == ThemeInit.Light ==> Flipped(Flipped(theme)) == theme
    ensures theme != ThemeInit.Dark ==> Flipped(theme) == ThemeInit.Dark
  {
  }

  /** `initializeThemeToggle`: the `data-theme` attribute and whether the
      system-preference listener was attached. */
  class LegacyThemeToggle {
    var htmlTheme: string
    const watching: bool
    /** The click listener is attached. */
    const listening: bool

    /** Reads the raw `localStorage` entry, applies it or the system
        preference, listens to the system only when nothing usable is stored,
        and attaches the click listener. Storage that cannot be used makes
        the unguarded read throw, which ends the block before anything is
        applied or attached: the attribute stays `docTheme`. */
    constructor (store: WebStorage.Store, docTheme: string, hasMatchMedia: bool, prefersDark: bool)
      ensures listening == store.available
      ensures var stored := if ThemeKey in store.items then Some(store.items[ThemeKey]) else None;
        htmlTheme == (if store.available then InitialTheme(stored, hasMatchMedia, prefersDark) else docTheme)
        && (watching <==> store.available && (stored.None? || stored.value == "") && hasMatchMedia)
    {
      var stored := if ThemeKey in store.items then Some(store.items[ThemeKey]) else None;
      if store.available {
        htmlTheme := InitialTheme(stored, hasMatchMedia, prefersDark);
        watching := (stored.None? || stored.value == "") && hasMatchMedia;
        listening := true;
      } else {
        htmlTheme := docTheme;
        watching := false;
        listening := false;
      }
    }

    /** A click, once the listener is attached: flips the attribute and
        writes it raw to `localStorage` (a throwing write leaves the new
        attribute in place). */
    method Click(store: WebStorage.Store)
      modifies this`htmlTheme, store`items
      ensures !listening ==> htmlTheme == old(htmlTheme) && store.items == old(store.items)
      ensures listening ==> htmlTheme == Flipped(old(htmlTheme))
      ensures listening ==> var written := old(store.items)[ThemeKey := htmlTheme];
                store.items == if store.available && store.fits(written) then written else old(store.items)
    {
      if !listening {
        return;
      }
      htmlTheme := Flipped(htmlTheme);
      if store.available && store.fits(store.items[ThemeKey := htmlTheme]) {
        store.items := store.items[ThemeKey := htmlTheme];
      }
    }

    /** The system listener, attached only when `watching`. */
    method SystemChanged(prefersDark: bool)
      requires watching
      modifies this`htmlTheme
      ensures htmlTheme == (if prefersDark then ThemeInit.Dark else ThemeInit.Light)
    {
      htmlTheme := if prefersDark then ThemeInit.Dark else ThemeInit.Light;
    }
  }

  /** What a click stores is what the next load applies. */
  lemma ClickIsRestored(items: map<string, string>, theme: string, hasMatchMedia: bool, prefersDark: bool)
    ensures var saved := items[ThemeKey := Flipped(theme)];
      InitialTheme(if ThemeKey in saved then Some(saved[ThemeKey]) else None, hasMatchMedia, prefersDark)
      == Flipped(theme)
  {
  }
}
