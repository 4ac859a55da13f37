/**
 * The scroll thresholds of the page script (js/main.js): the header's
 * `scrolled` class and the back-to-top button's visibility.
 */
module ScrollEffects {
  import opened Maybe

  /** `CONFIG.SCROLL_THRESHOLD` */
  const ScrollThreshold := 50

  /** `updateHeaderOnScroll()`: whether the header carries `scrolled`, for a page that has a header. */
  predicate HeaderScrolled(scrollTop: real) {
    scrollTop > ScrollThreshold as real
  }

  /** `updateHeaderOnScroll()` on the header's `scrolled` flag; a page without header is left as it is. */
  function UpdateHeader(header: Option<bool>, scrollTop: real): (r: Option<bool>)
    ensures r.Some? <==> header.Some?
    ensures r.Some? ==> (r.value <==> scrollTop > 50.0)
  {
    if header.None? then header else Some(HeaderScrolled(scrollTop))
  }

  /** The three inline style properties of `#back-to-top` that the script sets. */
  datatype ButtonStyle = ButtonStyle(opacity: string, visibility: string, transform: string)

  const Shown := ButtonStyle("1", "visible", "translateY(0)")
  /** Also the style `createBackToTopButton` gives a new button. */
  const Hidden := ButtonStyle("0", "hidden", "translateY(20px)")

  /** `updateBackToTopVisibility()`: shown once the page is scrolled by more than the window's height. */
  function BackToTop(button: Option<ButtonStyle>, scrollTop: real, innerHeight: int): (r: Option<ButtonStyle>)
    ensures r.Some? <==> button.Some?
    ensures r.Some? ==> (r.value == Shown || r.value == Hidden)
    ensures r.Some? ==> (r.value.visibility == "visible" <==> scrollTop > innerHeight as real)
  {
    if button.None? then button
    else if scrollTop > innerHeight as real then Some(Shown)
    else Some(Hidden)
  }

  /** What one scroll event leaves on the header and the button. */
  datatype ScrollView = ScrollView(header: Option<bool>, button: Option<ButtonStyle>)

  /** The header and button parts of the throttled scroll handler. */
  function OnScroll(v: ScrollView, scrollTop: real, innerHeight: int): ScrollView {
    ScrollView(UpdateHeader(v.header, scrollTop), BackToTop(v.button, scrollTop, innerHeight))
  }

  /** The outcome depends only on the scroll position, not on the earlier state: a second event at the same position changes nothing. */
  lemma OnScrollIdempotent(v: ScrollView, scrollTop: real, innerHeight: int)
    ensures OnScroll(OnScroll(v, scrollTop, innerHeight), scrollTop, innerHeight) == OnScroll(v, scrollTop, innerHeight)
  {
  }

  /** Both effects switch on once and stay on as the page scrolls further down. */
  lemma ThresholdsMonotone(s1: real, s2: real, innerHeight: int)
    requires s1 <= s2
    ensures HeaderScrolled(s1) ==> HeaderScrolled(s2)
    ensures BackToTop(Some(Hidden), s1, innerHeight) == Some(Shown) ==> BackToTop(Some(Hidden), s2, innerHeight) == Some(Shown)
  {
  }

  /** On a window at least 50 pixels high, a visible back-to-top button implies a scrolled header. */
  lemma ButtonShownImpliesHeaderScrolled(v: ScrollView, scrollTop: real, innerHeight: int)
    requires innerHeight >= ScrollThreshold
    requires v.header.Some? && v.button.Some?
    requires OnScroll(v, scrollTop, innerHeight).button == Some(Shown)
    ensures OnScroll(v, scrollTop, innerHeight).header == Some(true)
  {
  }

  /** A freshly created button at the top of the page keeps the hidden style it was created with. */
  lemma NewButtonStaysHiddenAtTop(innerHeight: int)
    requires innerHeight >= 0
    ensures BackToTop(Some(Hidden), 0.0, innerHeight) == Some(Hidden)
  {
  }
}
