/**
 * The hamburger menu of the page header (js/main.js, toggleMobileMenu and
 * closeMobileMenu). Three elements take part: the menu itself, the toggle
 * button, and the `<i>` icon inside the button; either of the last two may be
 * missing from the page, and when the menu is missing both operations do nothing.
 */
module MobileMenu {
  import opened Maybe

  const BarsIcon := "fas fa-bars"
  const TimesIcon := "fas fa-times"

  /** `b.toString()` */
  function BoolText(b: bool): string {
    if b then "true" else "false"
  }

  /** Which of the three elements the page has. */
  datatype MenuDom = MenuDom(hasMenu: bool, hasToggle: bool, hasIcon: bool)

  /** The icon is looked up inside the toggle, so a page without the toggle has no icon either. */
  predicate PossibleDom(dom: MenuDom) {
    dom.hasIcon ==> dom.hasToggle
  }

  /**
   * The attributes the two operations write: the menu's `active` class, the
   * icon's class name, `document.body.style.overflow`, the toggle's
   * `aria-expanded` and the menu's `aria-hidden` (an absent attribute is `None`).
   */
  datatype MenuView = MenuView(open: bool, icon: Option<string>, overflow: string,
                               ariaExpanded: Option<string>, ariaHidden: Option<string>)

  /** `toggleMobileMenu()` */
  function Toggled(dom: MenuDom, v: MenuView): MenuView {
    if !dom.hasMenu then v
    else
      var open := !v.open;
      MenuView(open,
               if dom.hasIcon then Some(if open then TimesIcon else BarsIcon) else v.icon,
               if open then "hidden" else "",
               if dom.hasToggle then Some(BoolText(open)) else v.ariaExpanded,
               Some(BoolText(!open)))
  }

  /** `closeMobileMenu()` */
  function Closed(dom: MenuDom, v: MenuView): MenuView {
    if !dom.hasMenu then v
    else
      MenuView(false,
               if dom.hasIcon then Some(BarsIcon) else v.icon,
               "",
               if dom.hasToggle then Some("false") else v.ariaExpanded,
               Some("true"))
  }

  /**
   * The attributes agree with the `active` class: the shape every toggle and
   * every close leaves behind.
   */
  predicate Consistent(dom: MenuDom, v: MenuView) {
    dom.hasMenu ==>
      && v.overflow == (if v.open then "hidden" else "")
      && v.ariaHidden == Some(BoolText(!v.open))
      && (dom.hasToggle ==> v.ariaExpanded == Some(BoolText(v.open)))
      && (dom.hasIcon ==> v.icon == Some(if v.open then TimesIcon else BarsIcon))
  }

  /**
   * Toggling flips the `active` class and makes `aria-expanded`, `aria-hidden`,
   * the body's overflow and the icon follow the new state.
   */
  lemma ToggleFollowsState(dom: MenuDom, v: MenuView)
    requires dom.hasMenu
    ensures var w := Toggled(dom, v);
      && w.open == !v.open
      && w.ariaHidden == Some(BoolText(!w.open))
      && (dom.hasToggle ==> w.ariaExpanded == Some(BoolText(w.open)))
      && (w.overflow == "hidden" <==> w.open)
      && Consistent(dom, w)
  {
  }

  /** Closing always ends closed, with `aria-expanded=false`, `aria-hidden=true` and the bars icon. */
  lemma CloseResets(dom: MenuDom, v: MenuView)
    requires dom.hasMenu
    ensures var w := Closed(dom, v);
      && !w.open && w.ariaHidden == Some("true") && w.overflow == ""
      && (dom.hasToggle ==> w.ariaExpanded == Some("false"))
      && (dom.hasIcon ==> w.icon == Some(BarsIcon))
      && Consistent(dom, w)
  {
  }

  /** Closing twice is closing once. */
  lemma CloseIdempotent(dom: MenuDom, v: MenuView)
    ensures Closed(dom, Closed(dom, v)) == Closed(dom, v)
  {
  }

  /** From any state the two operations leave behind, toggling twice changes nothing. */
  lemma ToggleTwiceRestores(dom: MenuDom, v: MenuView)
    requires Consistent(dom, v)
    ensures Toggled(dom, Toggled(dom, v)) == v
  {
  }

  /** Closing an open, consistent menu is the same as toggling it. */
  lemma CloseOpenIsToggle(dom: MenuDom, v: MenuView)
    requires Consistent(dom, v) && v.open
    ensures Closed(dom, v) == Toggled(dom, v)
  {
  }

  /**
   * The events `initMobileMenu` listens to: a click on the toggle (which stops
   * propagation), a click on a link inside the menu, a click anywhere else in
   * the document (`outsideHeader` when the page has a `.portfolio-header` that
   * does not contain the target), a key press, and a resize once the debounce
   * delivers it.
   */
  datatype MenuEvent = ToggleClick | MenuLinkClick | DocumentClick(outsideHeader: bool)
                     | KeyDown(key: string) | Resized(innerWidth: int)

  /**
   * The menu after one event. The listeners exist only when both the toggle and
   * the menu were found; a menu-link click also bubbles to the document, where
   * every handler it reaches closes the menu.
   */
  function OnMenuEvent(dom: MenuDom, v: MenuView, e: MenuEvent): MenuView {
    if !(dom.hasToggle && dom.hasMenu) then v
    else match e
      case ToggleClick => Toggled(dom, v)
      case MenuLinkClick => Closed(dom, v)
      case DocumentClick(outside) => if outside then Closed(dom, v) else v
      case KeyDown(key) => if key == "Escape" then Closed(dom, v) else v
      case Resized(width) => if width > 768 then Closed(dom, v) else v
  }

  /** Only a click on the toggle opens the menu; every other event leaves it closed or as it was. */
  lemma OnlyToggleOpens(dom: MenuDom, v: MenuView, e: MenuEvent)
    requires !v.open && OnMenuEvent(dom, v, e).open
    ensures e == ToggleClick
  {
  }

  /** Escape, a wide resize and a menu-link click always leave the menu closed. */
  lemma ClosingEvents(dom: MenuDom, v: MenuView, e: MenuEvent)
    requires dom.hasToggle && dom.hasMenu
    requires e == MenuLinkClick || e == KeyDown("Escape") || (e.Resized? && e.innerWidth > 768)
    ensures OnMenuEvent(dom, v, e) == Closed(dom, v) && !OnMenuEvent(dom, v, e).open
  {
  }

  /** No event breaks the agreement between the `active` class and the attributes. */
  lemma {:induction false} EventsKeepConsistent(dom: MenuDom, v: MenuView, events: seq<MenuEvent>)
    requires Consistent(dom, v)
    ensures Consistent(dom, Replay(dom, v, events))
    decreases |events|
  {
    if events != [] {
      var w := OnMenuEvent(dom, v, events[0]);
      assert Consistent(dom, w);
      EventsKeepConsistent(dom, w, events[1..]);
    }
  }

  /** The menu after a sequence of events. */
  function Replay(dom: MenuDom, v: MenuView, events: seq<MenuEvent>): MenuView
    decreases |events|
  {
    if events == [] then v else Replay(dom, OnMenuEvent(dom, v, events[0]), events[1..])
  }

  /** The menu, its toggle button and the icon, with the attributes the scripts write. */
  class Menu {
    const dom: MenuDom
    var open: bool
    var icon: Option<string>
    var overflow: string
    var ariaExpanded: Option<string>
    var ariaHidden: Option<string>

    /** The page as loaded: the menu closed and the attributes as the markup has them. */
    constructor (dom: MenuDom, initial: MenuView)
      requires PossibleDom(dom)
      ensures this.dom == dom && View() == initial
    {
      this.dom := dom;
      open := initial.open;
      icon := initial.icon;
      overflow := initial.overflow;
      ariaExpanded := initial.ariaExpanded;
      ariaHidden := initial.ariaHidden;
    }

    function View(): MenuView
      reads this
    {
      MenuView(open, icon, overflow, ariaExpanded, ariaHidden)
    }

    method Toggle()
      modifies this
      ensures View() == Toggled(dom, old(View()))
    {
      if dom.hasMenu {
        open := !open;
        if dom.hasIcon {
          icon := Some(if open then TimesIcon else BarsIcon);
        }
        overflow := if open then "hidden" else "";
        if dom.hasToggle {
          ariaExpanded := Some(BoolText(open));
        }
        ariaHidden := Some(BoolText(!open));
      }
    }

    method Close()
      modifies this
      ensures View() == Closed(dom, old(View()))
    {
      if dom.hasMenu {
        open := false;
        if dom.hasIcon {
          icon := Some(BarsIcon);
        }
        overflow := "";
        if dom.hasToggle {
          ariaExpanded := Some("false");
        }
        ariaHidden := Some("true");
      }
    }
  }
}
