/** The site-wide navigation bar (components/navigation.tsx): three links
    whose highlight follows the current path, and a mobile slide-out menu
    that is either open or closed. */
module Navigation {
  import opened Sequences

  datatype NavItem = NavItem(href: string, caption: string)

  /** The links of the bar, in display order. */
  function NavItems(): (items: seq<NavItem>)
    ensures |items| == 3 && items[0].href == Home
    ensures forall i, j :: 0 <= i < j < |items| ==> items[i].href != items[j].href
  {
    [NavItem("/", "Home"), NavItem("/products", "Products"), NavItem("/about", "About")]
  }

  const Home: string := "/"

  /** Whether the link to `href` is highlighted on `pathname`: the home link
      only on the home page itself, every other link on any path that starts
      with its href. */
  predicate IsActive(pathname: string, href: string) {
    if href == Home then pathname == Home else StartsWith(pathname, href)
  }

  /** A link is highlighted exactly on its own path and, unless it is the
      home link, on every path that extends it. */
  lemma IsActiveIff(pathname: string, href: string)
    ensures IsActive(pathname, href) <==>
      pathname == href || (href != Home && exists rest :: rest != "" && pathname == href + rest)
  {
    if href != Home && StartsWith(pathname, href) && pathname != href {
      var rest := pathname[|href|..];
      assert pathname == href + rest;
    }
    if href != Home && pathname != href {
      if rest :| rest != "" && pathname == href + rest {
        assert pathname[..|href|] == href;
      }
    }
  }

  /** A link is always highlighted on its own page. */
  lemma ActiveOnOwnPath(href: string)
    ensures IsActive(href, href)
  {
  }

  /** The home link is never highlighted away from the home page, even
      though every path starts with "/". */
  lemma HomeOnlyOnHome(pathname: string)
    requires pathname != Home
    ensures !IsActive(pathname, Home)
  {
  }

  /** The prefix test ignores path segments: the About link is highlighted on
      "/aboutus" too. */
  lemma PrefixIsNotSegmentAware()
    ensures IsActive("/aboutus", "/about")
    ensures IsActive("/products-archive", "/products")
  {
    assert "/aboutus"[..|"/about"|] == "/about";
    assert "/products-archive"[..|"/products"|] == "/products";
  }

  /** For any path, at most one of the three links is highlighted. */
  lemma AtMostOneActive(pathname: string, i: int, j: int)
    requires 0 <= i < j < |NavItems()|
    ensures !(IsActive(pathname, NavItems()[i].href) && IsActive(pathname, NavItems()[j].href))
  {
    if i == 0 {
      if pathname == Home {
        assert |pathname| < |NavItems()[j].href|;
      }
    } else if StartsWith(pathname, "/products") {
      // The second character tells the two apart.
      assert pathname[..|"/products"|][1] == 'p';
      assert |pathname| < 6 || pathname[..6][1] != "/about"[1];
    }
  }

  /** The highlighted links on a path. */
  function ActiveItems(pathname: string): (r: seq<NavItem>)
    ensures |r| <= 1
    ensures forall item :: item in r <==> item in NavItems() && IsActive(pathname, item.href)
  {
    var r := Filter(NavItems(), (item: NavItem) => IsActive(pathname, item.href));
    AtMostOneActiveItem(pathname, r);
    r
  }

  /** Filtering the bar by the highlight rule leaves at most one link: two
      would be two distinct positions both active, which `AtMostOneActive`
      excludes. */
  lemma AtMostOneActiveItem(pathname: string, r: seq<NavItem>)
    requires r == Filter(NavItems(), (item: NavItem) => IsActive(pathname, item.href))
    ensures |r| <= 1
  {
    var items := NavItems();
    if |r| >= 2 {
      assert r[0] in items && r[1] in items;
      FilterIsSubsequence(items, (item: NavItem) => IsActive(pathname, item.href));
      var idx :| Embedding(idx, r, items);
      AtMostOneActive(pathname, idx[0], idx[1]);
    }
  }

  /** The navigation bar's state: the path the router reports and whether
      the mobile menu is open. */
  class MobileMenu {
    var isOpen: bool
    var pathname: string

    /** The link highlighted on the current path, if any. */
    function Highlighted(): seq<NavItem>
      reads this
    {
      ActiveItems(pathname)
    }

    /** The bar as first rendered on `pathname`: the menu is closed. */
    constructor (pathname: string)
      ensures !isOpen && this.pathname == pathname
    {
      isOpen := false;
      this.pathname := pathname;
    }

    /** The sheet's own open/close request (the trigger button, the overlay,
      the Escape key) is passed straight to `setIsOpen`. */
    method OnOpenChange(open: bool)
      modifies this
      ensures isOpen == open && pathname == old(pathname)
    {
      isOpen := open;
    }

    /** The close button and the Contact button of the open menu both close
        it and stay on the same page. */
    method Close()
      modifies this
      ensures !isOpen && pathname == old(pathname)
    {
      isOpen := false;
    }

    /** A link of the menu closes the menu and the router moves to its href,
        where that link, and only that one, is highlighted. */
    method FollowLink(k: int)
      requires 0 <= k < |NavItems()|
      modifies this
      ensures !isOpen && pathname == NavItems()[k].href
      ensures Highlighted() == [NavItems()[k]]
    {
      isOpen := false;
      pathname := NavItems()[k].href;
      OwnLinkHighlighted(k);
    }
  }

  /** On a link's own path the highlighted list is exactly that link. */
  lemma OwnLinkHighlighted(k: int)
    requires 0 <= k < |NavItems()|
    ensures ActiveItems(NavItems()[k].href) == [NavItems()[k]]
  {
    var item := NavItems()[k];
    var r := ActiveItems(item.href);
    ActiveOnOwnPath(item.href);
    assert item in r;
    assert |r| == 1;
    assert r[0] == item;
  }
}
