/**
 * Navigation rules of the site's page script (js/main.js): the current page
 * name, the "active" nav link chosen by page name, the "active" anchor link
 * chosen by scroll position, and the smooth-scroll click handler.
 */
module Navigation {
  import opened Maybe
  import opened JsText
  import MobileMenu

  const DefaultPage := "index.html"
  /** `CONFIG.SCROLL_OFFSET` */
  const ScrollOffset := 100

  // ---------------------------------------------------------------- current page

  /** `getCurrentPage()`: `path.split('/').pop() || 'index.html'` */
  function CurrentPage(path: string): (page: string)
    ensures page != [] && '/' !in page
  {
    SplitSpec(path, '/');
    var parts := Split(path, '/');
    var last := parts[|parts| - 1];
    if last == [] then DefaultPage else last
  }

  /**
   * The current page is the text after the last `/` of the path (the whole path
   * when it has none), or `index.html` when that text is empty.
   */
  lemma CurrentPageIsLastSegment(path: string, dir: string, seg: string)
    requires path == dir + seg && '/' !in seg
    requires dir == [] || dir[|dir| - 1] == '/'
    ensures CurrentPage(path) == if seg == [] then DefaultPage else seg
  {
    LastPieceIsTail(path, '/');
    SplitSpec(path, '/');
    var parts := Split(path, '/');
    var last := parts[|parts| - 1];
    assert '/' !in last;
    assert forall i :: |path| - |seg| <= i < |path| ==> path[i] == seg[i - |dir|];
    assert forall i :: |path| - |last| <= i < |path| ==> path[i] == last[i - (|path| - |last|)];
    assert dir != [] ==> path[|dir| - 1] == '/';
    assert |last| == |seg|;
    assert path[|path| - |seg|..] == seg;
  }

  // ---------------------------------------------------------------- nav links by page

  /** The `isCurrentPage` condition of `setActiveNavLink`, all three disjuncts as written. */
  predicate IsCurrentPage(href: string, page: string) {
    || href == page
    || (page == "" && href == DefaultPage)
    || (StartsWith(href, "#") && page == DefaultPage)
  }

  /**
   * For the page `getCurrentPage` returns, the middle disjunct never fires: a
   * link is current iff its href is the page, or it is an in-page anchor on
   * `index.html`.
   */
  lemma EmptyPageDisjunctDead(path: string, href: string)
    ensures IsCurrentPage(href, CurrentPage(path)) <==>
      href == CurrentPage(path) || (StartsWith(href, "#") && CurrentPage(path) == DefaultPage)
  {
  }

  /** An `<a>` element: its `href` attribute (absent is `None`) and whether it has the `active` class. */
  class Link {
    const href: Option<string>
    var active: bool

    constructor (href: Option<string>, active: bool)
      ensures this.href == href && this.active == active
    {
      this.href := href;
      this.active := active;
    }
  }

  /** The position of the first link without an `href` attribute, or `|links|` when every link has one. */
  function FirstMissingHref(links: seq<Link>): (i: nat)
    ensures i <= |links|
    ensures forall k :: 0 <= k < i ==> links[k].href.Some?
    ensures i < |links| ==> links[i].href.None?
  {
    if links == [] || links[0].href.None? then 0 else 1 + FirstMissingHref(links[1..])
  }

  /**
   * `setActiveNavLink()` over the `.nav-link, .mobile-nav-link` elements in
   * document order. Each link loses `active`, then gains it iff it is current.
   * A link without `href` makes `href.startsWith` throw: that link is left
   * inactive, the later ones are not visited, and `completed` is false.
   */
  method SetActiveNavLink(links: seq<Link>, path: string) returns (completed: bool)
    requires forall i, j :: 0 <= i < j < |links| ==> links[i] != links[j]
    modifies set l | l in links
    ensures completed <==> FirstMissingHref(links) == |links|
    ensures forall k :: 0 <= k < |links| ==>
      links[k].active == if k < FirstMissingHref(links) then IsCurrentPage(links[k].href.value, CurrentPage(path))
                         else if k == FirstMissingHref(links) then false
                         else old(links[k].active)
  {
    var page := CurrentPage(path);
    var i := 0;
    while i < |links|
      invariant 0 <= i <= |links|
      invariant forall k :: 0 <= k < i ==> links[k].href.Some?
      invariant forall k :: 0 <= k < i ==> links[k].active == IsCurrentPage(links[k].href.value, page)
      invariant forall k :: i <= k < |links| ==> links[k].active == old(links[k].active)
    {
      var link := links[i];
      link.active := false;
      if link.href.None? {
        return false;
      }
      if IsCurrentPage(link.href.value, page) {
        link.active := true;
      }
      i := i + 1;
    }
    return true;
  }

  // ---------------------------------------------------------------- anchors by scroll position

  /** A `section[id]` element: its id, `offsetTop` and `offsetHeight`. */
  datatype Section = Section(id: string, offsetTop: int, offsetHeight: int)

  /** The header's `offsetHeight`, or 0 when the page has no `.portfolio-header`. */
  function HeaderHeight(header: Option<int>): int {
    if header.Some? then header.value else 0
  }

  /** `sectionTop` of `updateActiveSectionOnScroll` */
  function BandTop(s: Section, headerHeight: int): int {
    s.offsetTop - headerHeight - ScrollOffset
  }

  /** The section counts as on screen: `sectionTop <= scrollTop < sectionTop + offsetHeight`. */
  predicate InScrollBand(s: Section, scrollTop: real, headerHeight: int) {
    BandTop(s, headerHeight) as real <= scrollTop < (BandTop(s, headerHeight) + s.offsetHeight) as real
  }

  /** Section `k` is on screen and no later section is. */
  predicate LastInBand(sections: seq<Section>, k: int, scrollTop: real, headerHeight: int) {
    && 0 <= k < |sections|
    && InScrollBand(sections[k], scrollTop, headerHeight)
    && forall m :: k < m < |sections| ==> !InScrollBand(sections[m], scrollTop, headerHeight)
  }

  /**
   * The `sections.forEach` loop: the id of the LAST section in document order
   * whose band holds `scrollTop`, or `""` when none does.
   */
  method FindActiveSection(sections: seq<Section>, scrollTop: real, headerHeight: int) returns (id: string)
    ensures (forall k :: 0 <= k < |sections| ==> !InScrollBand(sections[k], scrollTop, headerHeight)) ==> id == ""
    ensures forall k :: LastInBand(sections, k, scrollTop, headerHeight) ==> id == sections[k].id
  {
    id := "";
    for i := 0 to |sections|
      invariant (forall k :: 0 <= k < i ==> !InScrollBand(sections[k], scrollTop, headerHeight)) ==> id == ""
      invariant forall k :: LastInBand(sections[..i], k, scrollTop, headerHeight) ==> id == sections[k].id
    {
      if InScrollBand(sections[i], scrollTop, headerHeight) {
        id := sections[i].id;
      }
    }
  }

  /** Selected by `a[href^="#"]`. */
  predicate IsAnchor(l: Link) {
    l.href.Some? && StartsWith(l.href.value, "#")
  }

  /**
   * `updateActiveSectionOnScroll()`. `links` are the page's `<a>` elements; the
   * ones selected by `a[href^="#"]` get `active` iff their href is `#` followed
   * by the active section's id, the others are untouched. With no sections the
   * handler returns at once (`None`). When no section is on screen the id is
   * `""`, so the only anchor left active is a bare `#`.
   */
  method UpdateActiveSectionOnScroll(sections: seq<Section>, links: seq<Link>, scrollTop: real, header: Option<int>)
    returns (activeId: Option<string>)
    modifies set l | l in links
    ensures sections == [] ==> activeId == None && forall l :: l in links ==> l.active == old(l.active)
    ensures sections != [] ==> activeId.Some?
    ensures activeId.Some? ==>
      (forall k :: 0 <= k < |sections| ==> !InScrollBand(sections[k], scrollTop, HeaderHeight(header))) ==>
      activeId.value == ""
    ensures activeId.Some? ==> forall k :: LastInBand(sections, k, scrollTop, HeaderHeight(header)) ==>
      activeId.value == sections[k].id
    ensures activeId.Some? ==> forall l :: l in links ==>
      l.active == if IsAnchor(l) then l.href.value == "#" + activeId.value else old(l.active)
    ensures sections != [] && (forall k :: 0 <= k < |sections| ==> !InScrollBand(sections[k], scrollTop, HeaderHeight(header))) ==>
      forall l :: l in links && IsAnchor(l) ==> (l.active <==> l.href.value == "#")
  {
    if sections == [] {
      return None;
    }
    var id := FindActiveSection(sections, scrollTop, HeaderHeight(header));
    ghost var seen: set<Link> := {};
    var i := 0;
    while i < |links|
      invariant 0 <= i <= |links|
      invariant seen == set k | 0 <= k < i :: links[k]
      invariant forall l :: l in links ==>
        l.active == if IsAnchor(l) && l in seen then l.href.value == "#" + id else old(l.active)
    {
      var link := links[i];
      if IsAnchor(link) {
        link.active := link.href.value == "#" + id;
      }
      seen := seen + {link};
      i := i + 1;
    }
    assert forall l :: l in links ==> l in seen;
    return Some(id);
  }

  // ---------------------------------------------------------------- smooth scrolling

  /** `Math.max(0, target.offsetTop - headerHeight - CONFIG.SCROLL_OFFSET)` */
  function ScrollTarget(offsetTop: int, header: Option<int>): (top: int)
    ensures top >= 0 && top >= offsetTop - HeaderHeight(header) - ScrollOffset
    ensures top == 0 || top == offsetTop - HeaderHeight(header) - ScrollOffset
  {
    var position := offsetTop - HeaderHeight(header) - ScrollOffset;
    if position > 0 then position else 0
  }

  /**
   * The two rules agree: after a smooth scroll to a section (with the same
   * header), that section's band holds the new scroll position, provided the
   * band ends below the top of the page.
   */
  lemma ScrollTargetIsInBand(s: Section, header: Option<int>)
    requires s.offsetHeight > 0
    requires BandTop(s, HeaderHeight(header)) + s.offsetHeight > 0
    ensures InScrollBand(s, ScrollTarget(s.offsetTop, header) as real, HeaderHeight(header))
  {
  }

  /**
   * The document click handler of `initSmoothScrolling`. `anchorHref` is the
   * href of `e.target.closest('a[href^="#"]')` (`None` when the click is not
   * inside such a link); `target` is the `offsetTop` of
   * `document.querySelector(href)`, `None` when nothing matches or the
   * selector is invalid (the bare `#` throws). Returns whether the default
   * action was prevented and where the window scrolls to.
   */
  method OnAnchorClick(anchorHref: Option<string>, target: Option<int>, header: Option<int>, menu: MobileMenu.Menu)
    returns (prevented: bool, scrollTo: Option<int>)
    modifies menu
    ensures prevented <==> anchorHref.Some?
    ensures scrollTo == if anchorHref.Some? && target.Some? then Some(ScrollTarget(target.value, header)) else None
    ensures menu.View() == if scrollTo.Some? then MobileMenu.Closed(menu.dom, old(menu.View())) else old(menu.View())
  {
    if anchorHref.None? {
      return false, None;
    }
    prevented := true;
    if target.None? {
      return prevented, None;
    }
    scrollTo := Some(ScrollTarget(target.value, header));
    menu.Close();
  }
}
