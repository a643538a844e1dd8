/** The navigation bar of src/components/nav/Navbar.tsx: the link table, the
    rule that marks a link active for the current path, and the bar's two
    pieces of state, `scrolled` and `mobileOpen`, with the events that
    change them. */
module Navbar {
  /** A link; `title` is the source's `label` field (a Dafny keyword). */
  datatype NavLink = NavLink(href: string, title: string)

  const NavLinks: seq<NavLink> := [
    NavLink("/", "Home"),
    NavLink("/projects", "Projects"),
    NavLink("/experience", "Experience"),
    NavLink("/research", "Research"),
    NavLink("/about", "About"),
    NavLink("/contact", "Contact")
  ]

  /** `pathname.startsWith(prefix)`. */
  predicate StartsWith(pathname: string, prefix: string) {
    |prefix| <= |pathname| && pathname[..|prefix|] == prefix
  }

  /** `isActive(href)` for the current `pathname`: the home link only on the
      home page itself, any other link on every path below it.  An active
      link's `href` always starts the path, but `/` starting it is not
      enough for home. */
  function IsActive(pathname: string, href: string): (active: bool)
    ensures active ==> StartsWith(pathname, href)
    ensures href != "/" && StartsWith(pathname, href) ==> active
    ensures href == "/" ==> (active <==> pathname == "/")
  {
    if href == "/" then pathname == "/" else StartsWith(pathname, href)
  }

  /** The home link first, then links of the form `/x...` whose second
      characters differ, so none is a prefix of another. */
  ghost predicate WellFormedLinks(links: seq<NavLink>) {
    && |links| >= 1
    && links[0].href == "/"
    && (forall i :: 1 <= i < |links| ==> |links[i].href| >= 2)
    && (forall i, j :: 1 <= i < j < |links| ==> links[i].href[1] != links[j].href[1])
  }

  /** Every link is active on its own page. */
  lemma ActiveOnOwnPage(href: string)
    ensures IsActive(href, href)
  {
    if href != "/" {
      assert href[..|href|] == href;
    }
  }

  /** The home link is active exactly on `/`; any other link exactly on the
      paths that start with its `href`, so `/projects/greenlens` activates
      `/projects`. */
  lemma IsActiveMeaning(pathname: string, href: string)
    ensures href == "/" ==> (IsActive(pathname, href) <==> pathname == "/")
    ensures href != "/" ==> (IsActive(pathname, href) <==> exists rest :: pathname == href + rest)
  {
    if href != "/" && IsActive(pathname, href) {
      var rest := pathname[|href|..];
      assert pathname == href + rest;
    }
  }

  /** Whatever the path, at most one link of a well-formed table is active. */
  lemma AtMostOneActive(links: seq<NavLink>, pathname: string, i: nat, j: nat)
    requires WellFormedLinks(links)
    requires i < j < |links|
    ensures !(IsActive(pathname, links[i].href) && IsActive(pathname, links[j].href))
  {
    var a, b := links[i].href, links[j].href;
    if IsActive(pathname, a) {
      if i == 0 {
        assert |pathname| < |b|;
      } else {
        assert pathname[1] == pathname[..|a|][1] == a[1] != b[1];
      }
    }
  }

  /** The site's link table is well formed. */
  lemma NavLinksWellFormed()
    ensures WellFormedLinks(NavLinks)
    ensures |NavLinks| == 6
  {
    var hrefs := ["/", "/projects", "/experience", "/research", "/about", "/contact"];
    assert forall i :: 0 <= i < 6 ==> NavLinks[i].href == hrefs[i];
    assert hrefs[1][1] == 'p' && hrefs[2][1] == 'e' && hrefs[3][1] == 'r' && hrefs[4][1] == 'a' && hrefs[5][1] == 'c';
  }

  /** On a project's page exactly the Projects link is highlighted. */
  lemma ProjectPageHighlightsProjects()
    ensures IsActive("/projects/greenlens", NavLinks[1].href)
    ensures forall i :: 0 <= i < |NavLinks| && i != 1 ==> !IsActive("/projects/greenlens", NavLinks[i].href)
  {
    NavLinksWellFormed();
    var p := "/projects/greenlens";
    assert p[..|NavLinks[1].href|] == NavLinks[1].href;
    forall i | 0 <= i < |NavLinks| && i != 1
      ensures !IsActive(p, NavLinks[i].href)
    {
      if i < 1 {
        AtMostOneActive(NavLinks, p, i, 1);
      } else {
        AtMostOneActive(NavLinks, p, 1, i);
      }
    }
  }

  /** The bar's state for the current route. */
  class NavbarState {
    var pathname: string
    var scrolled: bool
    var mobileOpen: bool

    /** First render on `path`: not scrolled, menu closed. */
    constructor (path: string)
      ensures pathname == path && !scrolled && !mobileOpen
    {
      pathname, scrolled, mobileOpen := path, false, false;
    }

    /** The menu button: flips `mobileOpen`, so two presses restore it. */
    method ToggleMenu()
      modifies this
      ensures mobileOpen == !old(mobileOpen)
      ensures pathname == old(pathname) && scrolled == old(scrolled)
    {
      mobileOpen := !mobileOpen;
    }

    /** A scroll event at vertical offset `scrollY`. */
    method OnScroll(scrollY: real)
      modifies this
      ensures scrolled <==> scrollY > 24.0
      ensures pathname == old(pathname) && mobileOpen == old(mobileOpen)
    {
      scrolled := scrollY > 24.0;
    }

    /** The route becomes `to`; the effect on `pathname` closes the menu when
        the path changed. */
    method Navigate(to: string)
      modifies this
      ensures pathname == to && scrolled == old(scrolled)
      ensures to != old(pathname) ==> !mobileOpen
      ensures to == old(pathname) ==> mobileOpen == old(mobileOpen)
    {
      if to != pathname {
        mobileOpen := false;
      }
      pathname := to;
    }
  }
}
