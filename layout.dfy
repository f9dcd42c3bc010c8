/** Page geometry shared by the hero buttons (Hero.tsx) and the navigation bar (Navbar.tsx). */
module Layout {

  /** Height of the fixed navigation bar, in pixels (`h-16`). */
  const NavbarHeight: int := 64

  /**
    The scroll target for a section whose top edge is at `offsetTop`: the section starts right
    below the navigation bar, and the page is never asked to scroll above its top.
  */
  function ScrollTop(offsetTop: int): (top: nat)
    ensures top >= offsetTop - NavbarHeight
    ensures top == 0 || top == offsetTop - NavbarHeight
  {
    if offsetTop - NavbarHeight > 0 then offsetTop - NavbarHeight else 0
  }
}
