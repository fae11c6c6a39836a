/**
 * The mobile navigation menu: the `active` class on the menu and on its
 * toggle button, and the body's scroll lock (`overflow: hidden`), driven by
 * the toggle click, a nav-link click, a click elsewhere on the page and a
 * settled window resize.
 */
module Menu {

  /** The breakpoint in CSS pixels at and below which the layout is mobile. */
  const MobileMaxWidth := 968

  /** The three flags: menu `active`, toggle `active`, body scroll-locked. */
  datatype Flags = Flags(menu: bool, toggle: bool, locked: bool)

  /** The menu, the toggle and the scroll lock agree. */
  predicate Synced(f: Flags)
  {
    f.menu == f.toggle == f.locked
  }

  const Closed := Flags(false, false, false)

  /** The toggle's click handler. Without a menu element it throws before
      changing anything. */
  function Toggled(f: Flags, hasMenu: bool): (r: Flags)
    ensures hasMenu ==> r.menu == !f.menu && r.toggle == !f.toggle && (r.locked <==> r.menu)
    ensures !hasMenu ==> r == f
  {
    if !hasMenu then f
    else
      var menu := !f.menu;
      Flags(menu, !f.toggle, menu)
  }

  /** A nav link's click handler: on a narrow viewport the menu closes and
      the lock is released; the toggle is cleared only if it exists, and
      without a menu element the handler throws before changing anything. */
  function LinkClicked(f: Flags, width: int, hasMenu: bool, hasToggle: bool): (r: Flags)
    ensures width <= MobileMaxWidth && hasMenu ==> !r.menu && !r.locked
    ensures width <= MobileMaxWidth && hasMenu && hasToggle ==> r == Closed
    ensures width > MobileMaxWidth || !hasMenu ==> r == f
  {
    if width <= MobileMaxWidth && hasMenu then
      Flags(false, if hasToggle then false else f.toggle, false)
    else f
  }

  /** The document's click handler: a click outside both the menu and the
      toggle closes everything, when both elements exist. */
  function ClickedOutside(f: Flags, inMenu: bool, inToggle: bool, hasMenu: bool, hasToggle: bool): (r: Flags)
    ensures hasMenu && hasToggle && !inMenu && !inToggle ==> r == Closed
    ensures !(hasMenu && hasToggle && !inMenu && !inToggle) ==> r == f
  {
    if hasMenu && hasToggle && !inMenu && !inToggle then Closed else f
  }

  /** The settled resize handler: on a wide viewport every present element
      is cleared and the lock is released. */
  function Resized(f: Flags, width: int, hasMenu: bool, hasToggle: bool): (r: Flags)
    ensures width > MobileMaxWidth ==> !r.locked
                                       && (hasMenu ==> !r.menu) && (hasToggle ==> !r.toggle)
    ensures width <= MobileMaxWidth ==> r == f
  {
    if width > MobileMaxWidth then
      Flags(if hasMenu then false else f.menu, if hasToggle then false else f.toggle, false)
    else f
  }

  /** The states a page can reach: the three flags agree, and a missing
      element never carries the class. */
  predicate Reachable(f: Flags, hasMenu: bool, hasToggle: bool)
  {
    Synced(f) && (!hasMenu ==> !f.menu) && (!hasToggle ==> !f.toggle)
  }

  /** Every handler keeps the menu, the toggle and the scroll lock in step. */
  lemma HandlersKeepFlagsInStep(f: Flags, hasMenu: bool, hasToggle: bool, width: int, inMenu: bool, inToggle: bool)
    requires Reachable(f, hasMenu, hasToggle)
    ensures hasToggle ==> Reachable(Toggled(f, hasMenu), hasMenu, hasToggle)
    ensures Reachable(LinkClicked(f, width, hasMenu, hasToggle), hasMenu, hasToggle)
    ensures Reachable(ClickedOutside(f, inMenu, inToggle, hasMenu, hasToggle), hasMenu, hasToggle)
    ensures Reachable(Resized(f, width, hasMenu, hasToggle), hasMenu, hasToggle)
  {
  }

  /** Toggling opens a closed menu with the lock on and closes an open one with the lock off. */
  lemma ToggleOpensAndCloses(f: Flags)
    requires Synced(f)
    ensures Toggled(f, true) == if f.menu then Closed else Flags(true, true, true)
    ensures Toggled(Toggled(f, true), true) == f
  {
  }

  /** Closing is idempotent: a second close, by any path, changes nothing. */
  lemma CloseIdempotent(f: Flags, width: int, inMenu: bool, inToggle: bool, hasMenu: bool, hasToggle: bool)
    ensures var g := LinkClicked(f, width, hasMenu, hasToggle);
            LinkClicked(g, width, hasMenu, hasToggle) == g
    ensures var g := ClickedOutside(f, inMenu, inToggle, hasMenu, hasToggle);
            ClickedOutside(g, inMenu, inToggle, hasMenu, hasToggle) == g
    ensures var g := Resized(f, width, hasMenu, hasToggle);
            Resized(g, width, hasMenu, hasToggle) == g
  {
  }

  /** The page's menu controller. */
  class MobileMenu {
    /** Whether `#navMenu` and `#navToggle` exist on the page. */
    const hasMenu: bool
    const hasToggle: bool
    var menuActive: bool
    var toggleActive: bool
    var bodyLocked: bool

    function State(): Flags
      reads this
    {
      Flags(menuActive, toggleActive, bodyLocked)
    }

    ghost predicate Valid()
      reads this
    {
      Reachable(State(), hasMenu, hasToggle)
    }

    /** The page loads with the menu closed and the body scrollable. */
    constructor (hasMenu: bool, hasToggle: bool)
      ensures Valid() && State() == Closed
      ensures this.hasMenu == hasMenu && this.hasToggle == hasToggle
    {
      this.hasMenu := hasMenu;
      this.hasToggle := hasToggle;
      menuActive, toggleActive, bodyLocked := false, false, false;
    }

    /** The toggle's click handler, bound only when the toggle exists. */
    method Toggle()
      requires Valid() && hasToggle
      modifies this
      ensures Valid()
      ensures State() == Toggled(old(State()), hasMenu)
    {
      if !hasMenu {
        return;
      }
      menuActive := !menuActive;
      toggleActive := !toggleActive;
      bodyLocked := menuActive;
    }

    /** A nav link's click handler. */
    method LinkClick(width: int)
      requires Valid()
      modifies this
      ensures Valid()
      ensures State() == LinkClicked(old(State()), width, hasMenu, hasToggle)
    {
      if width <= MobileMaxWidth {
        if !hasMenu {
          return;
        }
        menuActive := false;
        if hasToggle {
          toggleActive := false;
        }
        bodyLocked := false;
      }
    }

    /** The document's click handler, told whether the target lies inside
        the menu or inside the toggle. */
    method DocumentClick(inMenu: bool, inToggle: bool)
      requires Valid()
      modifies this
      ensures Valid()
      ensures State() == ClickedOutside(old(State()), inMenu, inToggle, hasMenu, hasToggle)
    {
      if hasMenu && hasToggle && !inMenu && !inToggle {
        menuActive := false;
        toggleActive := false;
        bodyLocked := false;
      }
    }

    /** The resize handler once the debounce has settled. */
    method SettledResize(width: int)
      requires Valid()
      modifies this
      ensures Valid()
      ensures State() == Resized(old(State()), width, hasMenu, hasToggle)
    {
      if width > MobileMaxWidth {
        if hasMenu {
          menuActive := false;
        }
        if hasToggle {
          toggleActive := false;
        }
        bodyLocked := false;
      }
    }
  }
}
