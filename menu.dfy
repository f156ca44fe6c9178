/** docs/js/components/Menu.js: the mobile navigation drawer. The state is the
    open flag and the attributes and classes the component writes on the
    toggle button, the drawer, the overlay and the page body, plus the list of
    listener clean-ups it keeps for `destroy`. */
module Menu {
  import Strings

  /** The element a listener is attached to; `Link(i)` is the i-th nav link. */
  datatype Target = ToggleButton | Overlay | Document | Drawer | Link(i: nat)

  datatype Listener = Listener(target: Target, event: string)

  /** The last path segment, as `pathname.split('/').pop()`. */
  function LastSegment(pathname: string): (r: string)
    ensures '/' !in r
    ensures Strings.EndsWith(pathname, r)
  {
    if '/' !in pathname then pathname
    else
      var r := LastSegment(pathname[1..]);
      assert pathname[1..][|pathname[1..]| - |r|..] == pathname[|pathname| - |r|..];
      r
  }

  /** The mobile header title for a page path: the page named by the last
      path segment (an empty one meaning `index.html`), and Home for any page
      not in the map. */
  function PageTitle(pathname: string): (title: string)
    ensures title in {"Home", "Gallery", "About", "Contact"}
  {
    var page := if LastSegment(pathname) == "" then "index.html" else LastSegment(pathname);
    if page == "gallery.html" then "Gallery"
    else if page == "about.html" then "About"
    else if page == "contact.html" then "Contact"
    else "Home"
  }

  /** `data-translate` of the header title: `nav.` and the lower-cased title. */
  function TitleKey(title: string): string {
    "nav." + Strings.ToLower(title)
  }

  /** The pages map to their titles; the site root and unknown pages show
      Home, and the translation key follows the title. */
  lemma PageTitleCases(dir: string, page: string)
    requires '/' !in page
    ensures PageTitle(dir + "/" + page) == PageTitle(page)
    ensures page == "gallery.html" ==> PageTitle(dir + "/" + page) == "Gallery"
    ensures page == "about.html" ==> PageTitle(dir + "/" + page) == "About"
    ensures page == "contact.html" ==> PageTitle(dir + "/" + page) == "Contact"
    ensures page == "" || page == "index.html" ==> PageTitle(dir + "/" + page) == "Home"
    ensures page !in {"gallery.html", "about.html", "contact.html"} ==> PageTitle(dir + "/" + page) == "Home"
    ensures TitleKey("Gallery") == "nav.gallery" && TitleKey("Home") == "nav.home"
  {
    LastSegmentOf(dir, page);
  }

  lemma {:induction false} LastSegmentOf(dir: string, page: string)
    requires '/' !in page
    ensures LastSegment(dir + "/" + page) == page
  {
    var s := dir + "/" + page;
    if dir == [] {
      assert s[1..] == page;
    } else {
      assert s[1..] == dir[1..] + "/" + page;
      LastSegmentOf(dir[1..], page);
    }
  }

  /** The listeners `attachEventListeners` registers for `links` nav links,
      in registration order; the two hover listeners per link only when the
      hover background exists. */
  function Listeners(links: nat, hasHoverBg: bool): (r: seq<Listener>)
    ensures |r| == 4 + links + (if hasHoverBg then 2 * links else 0)
  {
    [Listener(ToggleButton, "click"), Listener(Overlay, "click"),
     Listener(Document, "keydown"), Listener(Drawer, "click")]
    + seq(links, i requires 0 <= i < links => Listener(Link(i), "click"))
    + (if hasHoverBg then HoverListeners(links) else [])
  }

  function HoverListeners(links: nat): (r: seq<Listener>)
    ensures |r| == 2 * links
  {
    if links == 0 then []
    else HoverListeners(links - 1) + [Listener(Link(links - 1), "mouseenter"), Listener(Link(links - 1), "mouseleave")]
  }

  class Menu {
    var isOpen: bool
    /** The `active` class on the toggle button, the drawer and the overlay. */
    var toggleActive: bool
    var drawerActive: bool
    var overlayActive: bool
    var ariaExpanded: string
    var drawerAriaHidden: string
    var bodyOverflow: string
    var bodyMenuOpen: bool
    var cleanups: seq<Listener>
    /** The listeners currently attached to the page. */
    var attached: set<Listener>
    var pageTitle: string
    var pageTitleKey: string

    /** Every class and attribute agrees with the open flag. */
    ghost predicate Synced()
      reads this
    {
      toggleActive == isOpen && drawerActive == isOpen && overlayActive == isOpen
      && ariaExpanded == (if isOpen then "true" else "false")
      && drawerAriaHidden == (if isOpen then "false" else "true")
      && bodyOverflow == (if isOpen then "hidden" else "")
      && bodyMenuOpen == isOpen
    }

    /** `new Menu()` on a page whose toggle, drawer and overlay all exist and
        whose drawer has `links` links: closed, listeners attached, title set
        from the path. */
    constructor (links: nat, hasHoverBg: bool, pathname: string)
      ensures Synced() && !isOpen
      ensures cleanups == Listeners(links, hasHoverBg) && attached == set l | l in cleanups
      ensures pageTitle == PageTitle(pathname) && pageTitleKey == TitleKey(pageTitle)
    {
      isOpen := false;
      toggleActive := false;
      drawerActive := false;
      overlayActive := false;
      ariaExpanded := "false";
      drawerAriaHidden := "true";
      bodyOverflow := "";
      bodyMenuOpen := false;
      var ls := Listeners(links, hasHoverBg);
      cleanups := ls;
      attached := set l | l in ls;
      var title := PageTitle(pathname);
      pageTitle := title;
      pageTitleKey := TitleKey(title);
    }

    /** `open`. */
    method Open()
      modifies this`isOpen, this`toggleActive, this`drawerActive, this`overlayActive,
               this`ariaExpanded, this`drawerAriaHidden, this`bodyOverflow, this`bodyMenuOpen
      ensures Synced() && isOpen && ariaExpanded == "true" && drawerAriaHidden == "false" && bodyOverflow == "hidden"
    {
      isOpen := true;
      toggleActive := true;
      drawerActive := true;
      overlayActive := true;
      ariaExpanded := "true";
      drawerAriaHidden := "false";
      bodyOverflow := "hidden";
      bodyMenuOpen := true;
    }

    /** `close`; closing a closed menu changes nothing. */
    method Close()
      modifies this`isOpen, this`toggleActive, this`drawerActive, this`overlayActive,
               this`ariaExpanded, this`drawerAriaHidden, this`bodyOverflow, this`bodyMenuOpen
      ensures Synced() && !isOpen && ariaExpanded == "false" && drawerAriaHidden == "true" && bodyOverflow == ""
      ensures old(Synced()) && !old(isOpen) ==> unchanged(this)
    {
      isOpen := false;
      toggleActive := false;
      drawerActive := false;
      overlayActive := false;
      ariaExpanded := "false";
      drawerAriaHidden := "true";
      bodyOverflow := "";
      bodyMenuOpen := false;
    }

    /** `toggleMenu`. */
    method ToggleMenu()
      modifies this`isOpen, this`toggleActive, this`drawerActive, this`overlayActive,
               this`ariaExpanded, this`drawerAriaHidden, this`bodyOverflow, this`bodyMenuOpen
      ensures Synced() && isOpen == !old(isOpen)
    {
      if isOpen {
        Close();
      } else {
        Open();
      }
    }

    /** The document `keydown` listener: Escape closes an open menu. */
    method HandleKeydown(key: string)
      requires Synced()
      modifies this`isOpen, this`toggleActive, this`drawerActive, this`overlayActive,
               this`ariaExpanded, this`drawerAriaHidden, this`bodyOverflow, this`bodyMenuOpen
      ensures Synced()
      ensures key == "Escape" ==> !isOpen
      ensures key != "Escape" || !old(isOpen) ==> unchanged(this)
    {
      if key == "Escape" && isOpen {
        Close();
      }
    }

    /** A click on a nav link closes the menu; a real `href` (not empty and
        not `#`) is then navigated to. */
    method ClickLink(href: string) returns (navigate: bool)
      modifies this`isOpen, this`toggleActive, this`drawerActive, this`overlayActive,
               this`ariaExpanded, this`drawerAriaHidden, this`bodyOverflow, this`bodyMenuOpen
      ensures Synced() && !isOpen
      ensures navigate <==> href != "" && href != "#"
    {
      Close();
      navigate := href != "" && href != "#";
    }

    /** `destroy`: runs every clean-up, empties the list and closes the menu
        when it is open. */
    method Destroy()
      requires Synced()
      modifies this`cleanups, this`attached, this`isOpen, this`toggleActive, this`drawerActive,
               this`overlayActive, this`ariaExpanded, this`drawerAriaHidden, this`bodyOverflow, this`bodyMenuOpen
      ensures Synced() && !isOpen && cleanups == []
      ensures attached == old(attached) - set l | l in old(cleanups)
    {
      var i := 0;
      while i < |cleanups|
        invariant 0 <= i <= |cleanups| && cleanups == old(cleanups)
        invariant unchanged(this`isOpen, this`toggleActive, this`drawerActive, this`overlayActive,
                            this`ariaExpanded, this`drawerAriaHidden, this`bodyOverflow, this`bodyMenuOpen)
        invariant attached == old(attached) - set l | l in cleanups[..i]
      {
        assert cleanups[..i + 1] == cleanups[..i] + [cleanups[i]];
        attached := attached - {cleanups[i]};
        i := i + 1;
      }
      assert cleanups[..i] == cleanups;
      cleanups := [];
      if isOpen {
        Close();
      }
    }
  }
}
