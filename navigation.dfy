/** The navigation controller (main.js:4-88): navbar style by scroll offset,
    the mobile menu, and the highlighting of the link of the section in view. */
module NavigationController {
  import opened Wrappers

  datatype NavbarStyle = NavbarStyle(background: string, boxShadow: string)

  /** The style while the page is scrolled more than 100 px (main.js:25-26). */
  const Elevated := NavbarStyle("rgba(255, 255, 255, 0.98)", "0 2px 20px rgba(0, 0, 0, 0.1)")
  /** The style near the top of the page (main.js:28-29). */
  const Resting := NavbarStyle("rgba(255, 255, 255, 0.95)", "none")

  /** The scroll handler's choice (main.js:24): elevated strictly above 100 px. */
  function NavbarStyleAt(scrollY: real): (style: NavbarStyle)
    ensures style == Elevated <==> scrollY > 100.0
    ensures style == Resting <==> scrollY <= 100.0
  {
    if scrollY > 100.0 then Elevated else Resting
  }

  /** One entry handed to the section observer's callback: the section's `id`
      and whether it is intersecting. A section without an `id` attribute is
      passed with the id `"null"`, the string `#${null}` compares with. */
  datatype Entry = Entry(id: string, isIntersecting: bool)

  /** The id of the last intersecting entry, the one whose update wins when a
      callback delivers several (main.js:67-72). */
  function LastIntersecting(entries: seq<Entry>): (r: Option<string>)
    ensures r.None? <==> forall k :: 0 <= k < |entries| ==> !entries[k].isIntersecting
    ensures r.Some? ==>
      exists k :: 0 <= k < |entries| && entries[k].isIntersecting && entries[k].id == r.value
                  && forall j :: k < j < |entries| ==> !entries[j].isIntersecting
  {
    if entries == [] then None
    else if entries[|entries| - 1].isIntersecting then Some(entries[|entries| - 1].id)
    else LastIntersecting(entries[..|entries| - 1])
  }

  /** A `.nav-link` element. */
  class Link {
    const href: string
    /** Whether the element has the class `active`. */
    var active: bool

    constructor (href: string)
      ensures this.href == href && !active
    {
      this.href := href;
      active := false;
    }
  }

  class Navigation {
    /** The `.nav-link` elements in document order. */
    const links: seq<Link>
    /** Whether `.nav-menu` has the class `active` (the mobile menu is open). */
    var menuOpen: bool
    var navbarStyle: NavbarStyle

    constructor (links: seq<Link>, menuOpen: bool, navbarStyle: NavbarStyle)
      ensures this.links == links && this.menuOpen == menuOpen && this.navbarStyle == navbarStyle
    {
      this.links := links;
      this.menuOpen := menuOpen;
      this.navbarStyle := navbarStyle;
    }

    /** Exactly the links pointing at `#id` are active. */
    predicate ActiveFor(id: string)
      reads links
    {
      forall k :: 0 <= k < |links| ==> (links[k].active <==> links[k].href == "#" + id)
    }

    /** The scroll listener (main.js:23-31). */
    method OnScroll(scrollY: real)
      modifies this`navbarStyle
      ensures navbarStyle == NavbarStyleAt(scrollY)
    {
      if scrollY > 100.0 {
        navbarStyle := Elevated;
      } else {
        navbarStyle := Resting;
      }
    }

    /** A click on a nav link (main.js:36-50). When the link's `href` is a
        valid CSS selector, the lookup returns the section or null and the
        menu closes either way; when it is not (`""`, `"#"`, `"#1about"`, an
        absolute URL), `querySelector` throws at main.js:39 and the listener
        stops before closing the menu. */
    method OnLinkClick(hrefIsSelector: bool)
      modifies this`menuOpen
      ensures hrefIsSelector ==> !menuOpen
      ensures !hrefIsSelector ==> menuOpen == old(menuOpen)
    {
      if hrefIsSelector {
        menuOpen := false;
      }
    }

    /** A click on the hamburger toggles the mobile menu (main.js:55-57). */
    method OnHamburgerClick()
      modifies this`menuOpen
      ensures menuOpen == !old(menuOpen)
    {
      menuOpen := !menuOpen;
    }

    /** `updateActiveLink` (main.js:80-87): every link loses `active`, and
        those whose `href` is `#activeId` get it back. */
    method UpdateActiveLink(activeId: string)
      modifies links
      ensures ActiveFor(activeId)
    {
      for i := 0 to |links|
        invariant forall k :: 0 <= k < i ==> (links[k].active <==> links[k].href == "#" + activeId)
      {
        links[i].active := false;
        if links[i].href == "#" + activeId {
          links[i].active := true;
        }
      }
    }

    /** The section observer's callback (main.js:66-73): each intersecting
        entry updates the links in turn, so the last one decides; a callback
        without intersecting entries leaves them as they were. */
    method OnIntersect(entries: seq<Entry>)
      modifies links
      ensures LastIntersecting(entries).Some? ==> ActiveFor(LastIntersecting(entries).value)
      ensures LastIntersecting(entries).None? ==>
                forall k :: 0 <= k < |links| ==> links[k].active == old(links[k].active)
    {
      for i := 0 to |entries|
        invariant LastIntersecting(entries[..i]).Some? ==> ActiveFor(LastIntersecting(entries[..i]).value)
        invariant LastIntersecting(entries[..i]).None? ==>
                    forall k :: 0 <= k < |links| ==> links[k].active == old(links[k].active)
      {
        assert entries[..i + 1][..i] == entries[..i];
        if entries[i].isIntersecting {
          UpdateActiveLink(entries[i].id);
        }
      }
      assert entries[..|entries|] == entries;
    }
  }

  /** When the links have distinct targets, at most one of them is active. */
  lemma AtMostOneActive(links: seq<Link>, id: string, j: int, k: int)
    requires forall a, b :: 0 <= a < b < |links| ==> links[a].href != links[b].href
    requires forall m :: 0 <= m < |links| ==> (links[m].active <==> links[m].href == "#" + id)
    requires 0 <= j < |links| && 0 <= k < |links|
    requires links[j].active && links[k].active
    ensures j == k
  {
  }
}
