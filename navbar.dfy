/** The floating navigation bar: it hides while the page scrolls down past
    the top region and shows again on scrolling up or near the top; on small
    screens a toggle opens a menu that links and a backdrop close. */
module Nav {

  /** Below this scroll offset the bar is always shown. */
  const TopRegion := 100

  /** The visibility decided by one scroll event at `current` after the
      previous event at `last`: shown when scrolling up or within the top
      region, hidden when scrolling down (or staying put) past it. */
  function NextVisible(current: int, last: int): (visible: bool)
    ensures current < TopRegion ==> visible
    ensures current < last ==> visible
    ensures current >= TopRegion && current >= last ==> !visible
  {
    current < last || current < TopRegion
  }

  /** Scroll positions are whole pixels here; the browser reports a float. */
  class Navbar {
    var isVisible: bool
    var lastScrollY: int
    var isMobileMenuOpen: bool

    constructor()
      ensures isVisible && lastScrollY == 0 && !isMobileMenuOpen
    {
      isVisible, lastScrollY, isMobileMenuOpen := true, 0, false;
    }

    /** The scroll listener: decide visibility from the new and last
        positions, then remember the new one. The menu is not touched. */
    method ControlNavbar(currentScrollY: int)
      modifies this
      ensures isVisible == NextVisible(currentScrollY, old(lastScrollY))
      ensures lastScrollY == currentScrollY
      ensures isMobileMenuOpen == old(isMobileMenuOpen)
    {
      if currentScrollY < lastScrollY || currentScrollY < TopRegion {
        isVisible := true;
      } else {
        isVisible := false;
      }
      lastScrollY := currentScrollY;
    }

    /** The menu button: flip the menu. */
    method ToggleMobileMenu()
      modifies this
      ensures isMobileMenuOpen == !old(isMobileMenuOpen)
      ensures isVisible == old(isVisible) && lastScrollY == old(lastScrollY)
    {
      isMobileMenuOpen := !isMobileMenuOpen;
    }

    /** A mobile link or the backdrop was clicked: close the menu. */
    method CloseMobileMenu()
      modifies this
      ensures !isMobileMenuOpen
      ensures isVisible == old(isVisible) && lastScrollY == old(lastScrollY)
    {
      isMobileMenuOpen := false;
    }

    /** The backdrop is rendered, and so clickable, only while the menu is
        open. */
    predicate BackdropRendered()
      reads this
    {
      isMobileMenuOpen
    }

    /** The backdrop was clicked, which it can only be while rendered: it
        closes the menu and disappears with it. */
    method ClickBackdrop()
      requires BackdropRendered()
      modifies this
      ensures !isMobileMenuOpen && !BackdropRendered()
      ensures isVisible == old(isVisible) && lastScrollY == old(lastScrollY)
    {
      CloseMobileMenu();
    }
  }

  /** Two toggles restore the menu and a scroll in between does not
      affect it; closing is idempotent. */
  method ToggleTwiceRestores(n: Navbar, y: int)
    modifies n
    ensures n.isMobileMenuOpen == old(n.isMobileMenuOpen)
    ensures n.lastScrollY == y
  {
    n.ToggleMobileMenu();
    n.ControlNavbar(y);
    n.ToggleMobileMenu();
  }

  method CloseTwiceStaysClosed(n: Navbar)
    modifies n
    ensures !n.isMobileMenuOpen
    ensures n.isVisible == old(n.isVisible) && n.lastScrollY == old(n.lastScrollY)
  {
    n.CloseMobileMenu();
    n.CloseMobileMenu();
  }

  /** From a freshly mounted bar, the first scroll event to y hides the bar
      exactly when y is past the top region (a negative y, an overscroll,
      counts as scrolling up), and the menu is still closed. */
  method FirstScroll(y: int) returns (visible: bool, menuOpen: bool)
    ensures visible <==> y < TopRegion
    ensures !menuOpen
  {
    var n := new Navbar();
    n.ControlNavbar(y);
    visible, menuOpen := n.isVisible, n.isMobileMenuOpen;
  }

  /** On a freshly mounted bar the backdrop is absent; the menu button
      brings it up, and clicking it takes the menu and itself away. */
  method OpenThenBackdrop() returns (before: bool, rendered: bool, after: bool)
    ensures !before && rendered && !after
  {
    var n := new Navbar();
    before := n.BackdropRendered();
    n.ToggleMobileMenu();
    rendered := n.BackdropRendered();
    n.ClickBackdrop();
    after := n.BackdropRendered();
  }
}
