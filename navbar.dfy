/**
  The fixed navigation bar: which section is highlighted as the page scrolls, where a click on
  an item scrolls to, and the mobile menu's open/closed state.

  The document is a map from element id to that element's `offsetTop`; an id that is not in
  the map is an element `getElementById` does not find.
*/
module Navbar {
  import opened Wrappers
  import Layout

  datatype NavItem = NavItem(id: string, caption: string, href: string)

  const NavItems: seq<NavItem> := [
    NavItem("home", "Home", "#home"),
    NavItem("about", "About", "#about"),
    NavItem("experience", "Experience", "#experience"),
    NavItem("projects", "Projects", "#projects"),
    NavItem("contact", "Contact", "#contact")
  ]

  /** The section ids, in navigation order. */
  function SectionIds(items: seq<NavItem>): (ids: seq<string>)
    ensures |ids| == |items|
    ensures forall i :: 0 <= i < |items| ==> ids[i] == items[i].id
  {
    if items == [] then [] else [items[0].id] + SectionIds(items[1..])
  }

  /** Added to `scrollY` so that a section counts as reached a little before its top edge. */
  const DetectionOffset: int := 80

  /** Section `i` exists in the document and its top edge is at or above `position`. */
  predicate Reached(sections: seq<string>, offsets: map<string, int>, position: int, i: nat)
    requires i < |sections|
  {
    sections[i] in offsets && offsets[sections[i]] <= position
  }

  /** The last of the first `n` sections that has been reached, if any. */
  function LastReached(sections: seq<string>, offsets: map<string, int>, position: int, n: nat): (r: Option<nat>)
    requires n <= |sections|
    ensures r.Some? ==> r.value < n && Reached(sections, offsets, position, r.value)
    ensures r.Some? ==> forall j :: r.value < j < n ==> !Reached(sections, offsets, position, j)
    ensures r.None? <==> forall j :: 0 <= j < n ==> !Reached(sections, offsets, position, j)
  {
    if n == 0 then None
    else if Reached(sections, offsets, position, n - 1) then Some(n - 1)
    else LastReached(sections, offsets, position, n - 1)
  }

  /** The highlighted section after a scroll: the last one reached, or `current` when none is. */
  function ActiveSection(sections: seq<string>, offsets: map<string, int>, position: int, current: string): string {
    match LastReached(sections, offsets, position, |sections|)
    case None => current
    case Some(i) => sections[i]
  }

  /**
    The loop of `handleScroll`: walk the sections from the last to the first and stop at the
    first one whose top edge is at or above `position`.
  */
  method SelectActive(sections: seq<string>, offsets: map<string, int>, position: int, current: string)
    returns (active: string)
    ensures active == ActiveSection(sections, offsets, position, current)
  {
    active := current;
    var i: int := |sections| - 1;
    while i >= 0
      invariant -1 <= i < |sections|
      invariant LastReached(sections, offsets, position, |sections|) == LastReached(sections, offsets, position, i + 1)
      invariant active == current
    {
      if sections[i] in offsets && offsets[sections[i]] <= position {
        active := sections[i];
        break;
      }
      i := i - 1;
    }
  }

  /**
    With every section present and the sections laid out top to bottom, the highlighted
    section is the one whose span contains the detection position.
  */
  lemma {:induction false} ActiveIsContainingSection(sections: seq<string>, offsets: map<string, int>, position: int, current: string, i: nat)
    requires forall j :: 0 <= j < |sections| ==> sections[j] in offsets
    requires forall j, k :: 0 <= j < k < |sections| ==> offsets[sections[j]] <= offsets[sections[k]]
    requires i < |sections| && offsets[sections[i]] <= position
    requires i + 1 == |sections| || position < offsets[sections[i + 1]]
    ensures ActiveSection(sections, offsets, position, current) == sections[i]
  {
    var r := LastReached(sections, offsets, position, |sections|);
    assert Reached(sections, offsets, position, i);
    assert r.Some?;
  }

  /**
    `String.prototype.replace` with a one-character pattern: the first occurrence of `c` is
    removed and the rest is left as it is.
  */
  function RemoveFirst(s: string, c: char): string {
    if s == [] then []
    else if s[0] == c then s[1..]
    else [s[0]] + RemoveFirst(s[1..], c)
  }

  lemma {:induction false} RemoveFirstAt(pre: string, post: string, c: char)
    requires c !in pre
    ensures RemoveFirst(pre + [c] + post, c) == pre + post
  {
    if pre != [] {
      assert (pre + [c] + post)[1..] == pre[1..] + [c] + post;
      RemoveFirstAt(pre[1..], post, c);
    }
  }

  lemma {:induction false} RemoveFirstAbsent(s: string, c: char)
    requires c !in s
    ensures RemoveFirst(s, c) == s
  {
    if s != [] {
      RemoveFirstAbsent(s[1..], c);
    }
  }

  /** The element id a link points to: its href with the `#` removed. */
  function HrefToId(href: string): string {
    RemoveFirst(href, '#')
  }

  /** A fragment link `#id` points to `id`, and every item's href points to that item's id. */
  lemma HrefToIdOfFragment(id: string)
    requires '#' !in id
    ensures HrefToId("#" + id) == id
    ensures forall k :: 0 <= k < |NavItems| ==> HrefToId(NavItems[k].href) == NavItems[k].id
  {
    FragmentId(id);
    forall k | 0 <= k < |NavItems| ensures HrefToId(NavItems[k].href) == NavItems[k].id {
      ItemPointsToItself(NavItems[k]);
    }
  }

  lemma FragmentId(id: string)
    requires '#' !in id
    ensures HrefToId("#" + id) == id
  {
    RemoveFirstAt([], id, '#');
    assert [] + ['#'] + id == "#" + id;
  }

  lemma ItemPointsToItself(item: NavItem)
    requires item in NavItems
    ensures HrefToId(item.href) == item.id
  {
    assert '#' !in item.id && item.href == "#" + item.id;
    FragmentId(item.id);
  }

  /**
    Where a click on a link scrolls to: right below the bar at the target section, or nowhere
    when the document has no element with the target id.
  */
  function NavClickTarget(href: string, offsets: map<string, int>): (top: Option<nat>)
    ensures top.Some? <==> HrefToId(href) in offsets
    ensures top.Some? ==> top.value == Layout.ScrollTop(offsets[HrefToId(href)])
  {
    var targetId := HrefToId(href);
    if targetId in offsets then Some(Layout.ScrollTop(offsets[targetId])) else None
  }

  /** The bar's state. */
  class NavbarState {
    var isMenuOpen: bool
    var activeSection: string
    var isScrolled: bool

    constructor ()
      ensures !isMenuOpen && activeSection == "home" && !isScrolled
    {
      isMenuOpen := false;
      activeSection := "home";
      isScrolled := false;
    }

    /**
      `handleScroll`: the bar gets its background once the page is scrolled at all, and the
      highlighted section follows the scroll position; the menu is not touched.
    */
    method HandleScroll(scrollY: int, offsets: map<string, int>)
      modifies this
      ensures isScrolled == (scrollY > 0)
      ensures activeSection == ActiveSection(SectionIds(NavItems), offsets, scrollY + DetectionOffset, old(activeSection))
      ensures isMenuOpen == old(isMenuOpen)
    {
      isScrolled := scrollY > 0;
      var sections := SectionIds(NavItems);
      var scrollPosition := scrollY + DetectionOffset;
      activeSection := SelectActive(sections, offsets, scrollPosition, activeSection);
    }

    /**
      `handleNavClick`: the scroll target is returned to the caller, which scrolls the window;
      the menu is closed whether or not the target exists.
    */
    method HandleNavClick(href: string, offsets: map<string, int>) returns (scrollTo: Option<nat>)
      modifies this
      ensures scrollTo == NavClickTarget(href, offsets)
      ensures !isMenuOpen
      ensures activeSection == old(activeSection) && isScrolled == old(isScrolled)
    {
      var targetId := HrefToId(href);
      scrollTo := None;
      if targetId in offsets {
        var offsetTop := offsets[targetId] - Layout.NavbarHeight;
        scrollTo := Some(if 0 > offsetTop then 0 else offsetTop);
      }
      isMenuOpen := false;
    }

    /** The menu button flips the menu. */
    method ToggleMenu()
      modifies this
      ensures isMenuOpen == !old(isMenuOpen)
      ensures activeSection == old(activeSection) && isScrolled == old(isScrolled)
    {
      isMenuOpen := !isMenuOpen;
    }

    /** The document-wide click listener is registered only while the menu is open. */
    predicate ListensForOutsideClicks()
      reads this
    {
      isMenuOpen
    }

    /**
      A click anywhere in the document: it closes an open menu unless it landed inside the bar;
      with the menu closed no listener is registered and nothing happens.
    */
    method DocumentClick(insideNavbar: bool)
      modifies this
      ensures isMenuOpen == (old(isMenuOpen) && insideNavbar)
      ensures activeSection == old(activeSection) && isScrolled == old(isScrolled)
    {
      if ListensForOutsideClicks() && !insideNavbar {
        isMenuOpen := false;
      }
    }
  }
}
