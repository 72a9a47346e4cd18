/** The mobile navigation (`src/navigation/mobile-navigation.tsx`): one
    boolean, `isToggleOn`, that the menu button and every link of the menu
    content flip, and that the rendered markup mirrors. */
module MobileNav {

  /** `{ isToggleOn }`. */
  datatype MenuState = MenuState(isToggleOn: bool)

  /** The updater `prevState => ({ isToggleOn: !prevState.isToggleOn })`. */
  function Toggle(prev: MenuState): (r: MenuState)
    ensures r.isToggleOn != prev.isToggleOn
  {
    MenuState(!prev.isToggleOn)
  }

  /** The state after `n` clicks. */
  function AfterClicks(s: MenuState, n: nat): MenuState
    decreases n
  {
    if n == 0 then s else Toggle(AfterClicks(s, n - 1))
  }

  /** Toggling twice gives the state back. */
  lemma ToggleTwice(s: MenuState)
    ensures Toggle(Toggle(s)) == s
  {
  }

  /** After `n` clicks the menu is open exactly when it started closed and
      `n` is odd, or started open and `n` is even. */
  lemma {:induction false} ClickParity(s: MenuState, n: nat)
    ensures AfterClicks(s, n).isToggleOn <==> (s.isToggleOn != (n % 2 == 1))
    decreases n
  {
    if n > 0 {
      ClickParity(s, n - 1);
    }
  }

  /** The flags the markup carries: `data-menu-open` on the `nav`, the
      button's `isToggleOn` and the content's `data-menu-open`. */
  datatype View = View(navMenuOpen: bool, buttonToggleOn: bool, contentMenuOpen: bool)

  /** The render: all three flags show the one state. */
  function Render(s: MenuState): (v: View)
    ensures v.navMenuOpen == v.buttonToggleOn == v.contentMenuOpen == s.isToggleOn
  {
    View(s.isToggleOn, s.isToggleOn, s.isToggleOn)
  }

  /** The component. */
  class MobileNavigation {
    var state: MenuState

    /** The menu starts closed. */
    constructor ()
      ensures state == MenuState(false)
    {
      state := MenuState(false);
    }

    /** `handleMenuClick`: applies the updater to the current state. */
    method HandleMenuClick()
      modifies this
      ensures state == Toggle(old(state))
    {
      state := Toggle(state);
    }
  }

  /** The menu content (`mobile-menu-content.tsx`); its optional
      `onHandleMenuClick` prop is the navigation's handler, modelled as the
      navigation it belongs to. */
  class MobileMenuContent {
    const parent: MobileNavigation?

    constructor (parent: MobileNavigation?)
      ensures this.parent == parent
    {
      this.parent := parent;
    }

    /** A click on a menu link calls the handler when one was passed, so the
        open menu closes as the user navigates; without one nothing changes. */
    method HandleMenuClick()
      modifies parent
      ensures parent != null ==> parent.state == Toggle(old(parent.state))
    {
      if parent != null {
        parent.HandleMenuClick();
      }
    }
  }
}
