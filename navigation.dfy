/**
 * The navigation behaviour of js/main.js: the mobile menu's open/closed state (toggle button,
 * clicks outside, clicks on a menu link), the header's `scrolled` class, and the `active` class of
 * the nav link that matches the current path.
 */
module Navigation {
  import opened JsText

  /**
   * What the nav handlers write: the toggle's `aria-expanded` attribute, the `active` class of
   * the mobile menu and of the toggle, and `document.body.style.overflow`.
   */
  datatype NavState = NavState(ariaExpanded: string, menuActive: bool, toggleActive: bool, overflow: string)

  /** The page as loaded: menu closed, `aria-expanded="false"`, body scrolling. */
  const InitialNav := NavState("false", false, false, "")

  /** The four written values agree with one another: all say open or all say closed. */
  predicate Consistent(s: NavState) {
    && s.toggleActive == s.menuActive
    && s.ariaExpanded == (if s.menuActive then "true" else "false")
    && s.overflow == (if s.menuActive then "hidden" else "")
  }

  /** The toggle's click handler; `setAttribute` writes the boolean `!isExpanded` as "true" or "false". */
  function ToggleStep(s: NavState): NavState {
    var isExpanded := s.ariaExpanded == "true";
    var menuActive := !s.menuActive;
    NavState(if isExpanded then "false" else "true", menuActive, !s.toggleActive,
      if menuActive then "hidden" else "")
  }

  /** The body of the outside-click and link-click handlers: everything closed. */
  function CloseStep(s: NavState): NavState {
    NavState("false", false, false, "")
  }

  /** Where a click lands, as far as the three click handlers can tell. */
  datatype ClickTarget = ToggleButton | MenuLink | InsideMenu | Elsewhere

  /**
   * One click: the toggle handler for the toggle button, the link handler for a menu link, nothing
   * for any other point inside the menu, the document handler for any point outside both (the
   * document handler ignores clicks inside the toggle or the menu).
   */
  function ClickStep(s: NavState, target: ClickTarget): NavState {
    match target
    case ToggleButton => ToggleStep(s)
    case MenuLink => CloseStep(s)
    case InsideMenu => s
    case Elsewhere => CloseStep(s)
  }

  /** The state after a sequence of clicks. */
  function Run(s: NavState, clicks: seq<ClickTarget>): NavState
    decreases |clicks|
  {
    if clicks == [] then s else Run(ClickStep(s, clicks[0]), clicks[1..])
  }

  /** On a consistent state the toggle opens a closed menu and closes an open one, keeping consistency. */
  lemma ToggleFlips(s: NavState)
    requires Consistent(s)
    ensures Consistent(ToggleStep(s))
    ensures ToggleStep(s).menuActive == !s.menuActive
    ensures ToggleStep(s).overflow == "hidden" <==> !s.menuActive
  {
  }

  /** Two toggles in a row restore a consistent state. */
  lemma ToggleTwice(s: NavState)
    requires Consistent(s)
    ensures ToggleStep(ToggleStep(s)) == s
  {
  }

  /** Closing yields the closed consistent state from any state; closing twice is closing once. */
  lemma CloseIdempotent(s: NavState)
    ensures CloseStep(s) == InitialNav && Consistent(CloseStep(s))
    ensures CloseStep(CloseStep(s)) == CloseStep(s)
  {
  }

  /** Every click keeps the state consistent; the body scroll is locked exactly while the menu is open. */
  lemma ClickPreservesConsistency(s: NavState, target: ClickTarget)
    requires Consistent(s)
    ensures Consistent(ClickStep(s, target))
    ensures ClickStep(s, target).overflow == "hidden" <==> ClickStep(s, target).menuActive
  {
  }

  /** From the page as loaded, every sequence of clicks leaves the four values in agreement. */
  lemma {:induction false} ReachableConsistent(s: NavState, clicks: seq<ClickTarget>)
    requires Consistent(s)
    ensures Consistent(Run(s, clicks))
    decreases |clicks|
  {
    if clicks != [] {
      ClickPreservesConsistency(s, clicks[0]);
      ReachableConsistent(ClickStep(s, clicks[0]), clicks[1..]);
    }
  }

  /** The mobile navigation's DOM state, updated in place by its handlers. */
  class MobileNav {
    var ariaExpanded: string
    var menuActive: bool
    var toggleActive: bool
    var overflow: string

    constructor ()
      ensures State() == InitialNav
    {
      ariaExpanded := "false";
      menuActive := false;
      toggleActive := false;
      overflow := "";
    }

    function State(): NavState
      reads this
    {
      NavState(ariaExpanded, menuActive, toggleActive, overflow)
    }

    /** The toggle button's `click` handler. */
    method Toggle()
      modifies this
      ensures State() == ToggleStep(old(State()))
    {
      var isExpanded := ariaExpanded == "true";
      ariaExpanded := if !isExpanded then "true" else "false";
      menuActive := !menuActive;
      toggleActive := !toggleActive;
      overflow := if menuActive then "hidden" else "";
    }

    /** The outside-click and link-click handlers. */
    method Close()
      modifies this
      ensures State() == CloseStep(old(State()))
    {
      menuActive := false;
      toggleActive := false;
      ariaExpanded := "false";
      overflow := "";
    }

    /** A click at `target`, dispatched to the handlers that react to it. */
    method Click(target: ClickTarget)
      modifies this
      ensures State() == ClickStep(old(State()), target)
      ensures old(Consistent(State())) ==> Consistent(State())
    {
      if Consistent(State()) {
        ClickPreservesConsistency(State(), target);
      }
      match target
      case ToggleButton => Toggle();
      case MenuLink => Close();
      case InsideMenu =>
      case Elsewhere => Close();
    }
  }

  /** The scroll offset beyond which the header has class `scrolled`. */
  const ScrollThreshold: real := 50.0

  /** `currentScroll > 50`. */
  predicate IsScrolled(offset: real) {
    offset > ScrollThreshold
  }

  /** The header's `scrolled` class and the handler's `lastScroll` variable. */
  datatype HeaderState = HeaderState(scrolled: bool, lastScroll: real)

  /** The `scroll` handler for the offset `currentScroll`. */
  function ScrollStep(s: HeaderState, currentScroll: real): HeaderState {
    HeaderState(IsScrolled(currentScroll), currentScroll)
  }

  /** The state after a sequence of scroll events, in order. */
  function Scrolls(s: HeaderState, offsets: seq<real>): HeaderState
    decreases |offsets|
  {
    if offsets == [] then s else Scrolls(ScrollStep(s, offsets[0]), offsets[1..])
  }

  /**
   * The handler keeps no history that matters: after any non-empty sequence of scroll events the
   * header is scrolled exactly when the last offset exceeds 50, whatever the earlier offsets and the
   * starting state were; with no event nothing changes.
   */
  lemma {:induction false} ScrollsDependOnLast(s: HeaderState, offsets: seq<real>)
    ensures offsets == [] ==> Scrolls(s, offsets) == s
    ensures offsets != [] ==> Scrolls(s, offsets).scrolled == (offsets[|offsets| - 1] > 50.0)
    ensures offsets != [] ==> Scrolls(s, offsets).lastScroll == offsets[|offsets| - 1]
    decreases |offsets|
  {
    if |offsets| > 1 {
      var rest := offsets[1..];
      ScrollsDependOnLast(ScrollStep(s, offsets[0]), rest);
      assert rest[|rest| - 1] == offsets[|offsets| - 1];
    } else if |offsets| == 1 {
      assert Scrolls(ScrollStep(s, offsets[0]), offsets[1..]) == ScrollStep(s, offsets[0]);
    }
  }

  /** The header element and the handler's `lastScroll` variable. */
  class Header {
    var scrolled: bool
    var lastScroll: real

    constructor ()
      ensures State() == HeaderState(false, 0.0)
    {
      scrolled := false;
      lastScroll := 0.0;
    }

    function State(): HeaderState
      reads this
    {
      HeaderState(scrolled, lastScroll)
    }

    /** The window's `scroll` handler, given `window.pageYOffset`. */
    method OnScroll(currentScroll: real)
      modifies this
      ensures State() == ScrollStep(old(State()), currentScroll)
      ensures scrolled <==> currentScroll > 50.0
    {
      if currentScroll > 50.0 {
        scrolled := true;
      } else {
        scrolled := false;
      }
      lastScroll := currentScroll;
    }
  }

  /** `href === currentPath || (currentPath.includes(href) && href !== '/' && href !== '/index.html')`. */
  predicate IsActiveLink(href: string, path: string) {
    href == path || (Includes(path, href) && href != "/" && href != "/index.html")
  }

  /** A link is active iff its href is the path, or occurs in it and is not one of the two home hrefs. */
  lemma ActiveLinkIff(href: string, path: string)
    ensures IsActiveLink(href, path) <==>
      href == path || ((exists i: nat :: OccursAt(path, href, i)) && href != "/" && href != "/index.html")
  {
  }

  /** The home links are active only on their own exact path. */
  lemma HomeLinksExact(path: string)
    ensures IsActiveLink("/", path) <==> path == "/"
    ensures IsActiveLink("/index.html", path) <==> path == "/index.html"
  {
  }

  /** Any other href is active on every path that contains it, such as a sub-page's path. */
  lemma ActiveOnContainingPath(href: string, before: string, after: string)
    requires href != "/" && href != "/index.html"
    ensures IsActiveLink(href, before + href + after)
  {
    var p := before + href + after;
    assert p[|before|..|before| + |href|] == href;
    assert OccursAt(p, href, |before|);
  }

  /** An empty `href` attribute is in every path, so such a link is always active. */
  lemma EmptyHrefAlwaysActive(path: string)
    ensures IsActiveLink("", path)
  {
    assert OccursAt(path, "", 0);
  }

  /** A navigation link: its `href` attribute and whether it has class `active`. */
  class NavLink {
    const href: string
    var active: bool

    constructor (href: string)
      ensures this.href == href && !active
    {
      this.href := href;
      active := false;
    }
  }

  /** The active-nav loop: adds `active` to every matching link and removes it from none. */
  method HighlightActiveLinks(links: seq<NavLink>, currentPath: string)
    modifies links
    ensures forall i :: 0 <= i < |links| ==>
      links[i].active == (old(links[i].active) || IsActiveLink(links[i].href, currentPath))
  {
    var k := 0;
    while k < |links|
      invariant 0 <= k <= |links|
      invariant forall i :: 0 <= i < k ==>
        links[i].active == (old(links[i].active) || IsActiveLink(links[i].href, currentPath))
      invariant forall i :: k <= i < |links| ==>
        links[i].active == (old(links[i].active) || (links[i] in links[..k] && IsActiveLink(links[i].href, currentPath)))
    {
      if IsActiveLink(links[k].href, currentPath) {
        links[k].active := true;
      }
      k := k + 1;
    }
  }
}
