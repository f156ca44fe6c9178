/** docs/js/app.js: the application shell — which page initialisers run
    for a path, the featured carousel's breakpoints, the hand-off of an
    inquiry from the lightbox to the contact form, and the component
    registry. */
module App {
  import opened Wrappers
  import opened Json
  import Strings
  import WebStorage
  import Lightbox

  // ------------------------------------------------------------ pages

  datatype Page = Home | GalleryPage | Contact | About

  /** `initializePageSpecific`: four independent checks on the path, in
      this order, so one path can start several pages. */
  function PageInits(path: string): (pages: seq<Page>)
    ensures Home in pages <==> Strings.EndsWith(path, "index.html") || Strings.EndsWith(path, "/")
    ensures GalleryPage in pages <==> Strings.Contains(path, "gallery.html")
    ensures Contact in pages <==> Strings.Contains(path, "contact.html")
    ensures About in pages <==> Strings.Contains(path, "about.html")
    ensures forall i, j :: 0 <= i < j < |pages| ==> PageRank(pages[i]) < PageRank(pages[j])
  {
    (if Strings.EndsWith(path, "index.html") || Strings.EndsWith(path, "/") then [Home] else [])
    + (if Strings.Contains(path, "gallery.html") then [GalleryPage] else [])
    + (if Strings.Contains(path, "contact.html") then [Contact] else [])
    + (if Strings.Contains(path, "about.html") then [About] else [])
  }

  /** The position of each check in `initializePageSpecific`. */
  function PageRank(p: Page): nat {
    match p
    case Home => 0
    case GalleryPage => 1
    case Contact => 2
    case About => 3
  }

  /** A directory-style gallery path runs both the home and the gallery
      initialisers. */
  lemma GalleryDirectoryRunsTwoPages()
    ensures PageInits("/gallery.html/") == [Home, GalleryPage]
  {
    var path := "/gallery.html/";
    assert Strings.OccursAt(path, "gallery.html", 1);
    assert !Strings.Contains(path, "contact.html") by {
      forall i | 0 <= i <= |path| - 12
        ensures !Strings.OccursAt(path, "contact.html", i)
      {
        assert path[i..i + 12][0] == path[i];
      }
    }
    assert !Strings.Contains(path, "about.html") by {
      forall i | 0 <= i <= |path| - 10
        ensures !Strings.OccursAt(path, "about.html", i)
      {
        assert path[i..i + 10][0] == path[i] && path[i..i + 10][1] == path[i + 1];
      }
    }
  }

  /** The featured carousel's `itemsPerView`: 1 up to 768 pixels, 2 up to
      1024, else 3. */
  function ItemsPerView(innerWidth: int): (n: nat)
    ensures 1 <= n <= 3
    ensures n == 1 <==> innerWidth <= 768
    ensures n == 3 <==> innerWidth > 1024
  {
    if innerWidth <= 768 then 1 else if innerWidth <= 1024 then 2 else 3
  }

  /** A wider window never shows fewer items. */
  lemma ItemsPerViewMonotone(narrow: int, wide: int)
    requires narrow <= wide
    ensures ItemsPerView(narrow) <= ItemsPerView(wide)
  {
  }

  // ------------------------------------------------------------ resize handler

  /** The methods `Carousel` defines for its instances. */
  const CarouselMethods: set<string> :=
    {"init", "setupItems", "setupControls", "setupIndicators", "attachEventListeners", "handleSwipe",
     "goTo", "next", "previous", "startAutoplay", "stopAutoplay", "pause", "play", "updateIndicators",
     "announceSlide", "destroy"}

  /** What the home page's debounced resize callback does to the featured
      carousel: it throws, or lays the carousel out again. */
  datatype Resized = ResizeThrew | Relaid(itemsPerView: nat)

  /** The callback as written: it calls `carousel.recalculate()`. A method the
      carousel does not have reads as `undefined`, and calling it throws a
      TypeError. */
  function ResizeAsWritten(methods: set<string>, innerWidth: int): (r: Resized)
    ensures r.ResizeThrew? <==> "recalculate" !in methods
    ensures r.Relaid? ==> r.itemsPerView == ItemsPerView(innerWidth)
  {
    if "recalculate" in methods then Relaid(ItemsPerView(innerWidth)) else ResizeThrew
  }

  /** A carousel has no `recalculate`, so every resize of the home page
      throws inside the timer and the layout never follows the window. */
  lemma ResizeAlwaysThrows(innerWidth: int)
    ensures ResizeAsWritten(CarouselMethods, innerWidth) == ResizeThrew
  {
  }

  /** The callback as evidently intended: the carousel is laid out again with
      the breakpoints used when it was built. */
  function ResizeIntended(innerWidth: int): (r: Resized)
    ensures r.Relaid? && 1 <= r.itemsPerView <= 3
    ensures r.itemsPerView == 1 <==> innerWidth <= 768
    ensures r.itemsPerView == 3 <==> innerWidth > 1024
  {
    Relaid(ItemsPerView(innerWidth))
  }

  /** The intended callback is the written one on a carousel that has a
      `recalculate`, it never throws, and a wider window never shows fewer
      items. */
  lemma ResizeIntendedFollowsWindow(narrow: int, wide: int)
    requires narrow <= wide
    ensures ResizeIntended(wide) == ResizeAsWritten(CarouselMethods + {"recalculate"}, wide)
    ensures ResizeIntended(narrow).itemsPerView <= ResizeIntended(wide).itemsPerView
  {
    ItemsPerViewMonotone(narrow, wide);
  }

  // ------------------------------------------------------------ inquiry hand-off

  /** The inquiry the lightbox stores is what the contact page reads back:
      written raw under `inquiryMessage`, it is not JSON text and it is
      never empty, so `prefillInquiryMessage` takes it. */
  lemma InquiryHandOff(items: map<string, string>, titleText: string, sizeText: string,
                       parse: string -> Option<Json>)
    requires parse(Lightbox.InquiryMessage(titleText, sizeText)).None?
    ensures var m := Lightbox.InquiryMessage(titleText, sizeText);
      var read := WebStorage.ReadValue(WebStorage.Probed(items[Lightbox.InquiryKey := m]), Lightbox.InquiryKey, JNull, parse);
      read == JStr(m) && Truthy(read)
  {
    var m := Lightbox.InquiryMessage(titleText, sizeText);
    assert WebStorage.Probed(items[Lightbox.InquiryKey := m])[Lightbox.InquiryKey] == m;
    assert |m| > 0 by {
      if titleText != "" {
        assert |"I'm interested in \"" + titleText + "\" ("| <= |m|;
      } else {
        assert |"I'm interested in \"this artwork\" ("| <= |m|;
      }
    }
  }

  // ------------------------------------------------------------ registry

  /** A registered component, reduced to whether it has a `destroy`
      method. */
  datatype Component = Component(hasDestroy: bool)

  /** The names whose `destroy` runs, in the registry's order. */
  function DestroyOrder(order: seq<string>, components: map<string, Component>): seq<string>
    requires forall k :: k in order ==> k in components
  {
    if order == [] then []
    else DestroyOrder(order[..|order| - 1], components)
         + (var k := order[|order| - 1]; if components[k].hasDestroy then [k] else [])
  }

  /** `destroy` reaches exactly the registered components that have a
      `destroy`, each once, in insertion order. */
  lemma {:induction false} DestroyOrderMeans(order: seq<string>, components: map<string, Component>)
    requires forall k :: k in order ==> k in components
    requires forall i, j :: 0 <= i < j < |order| ==> order[i] != order[j]
    ensures var d := DestroyOrder(order, components);
      && (forall k :: k in d <==> k in order && components[k].hasDestroy)
      && (forall i, j :: 0 <= i < j < |d| ==> d[i] != d[j])
  {
    if order != [] {
      var init := order[..|order| - 1];
      DestroyOrderMeans(init, components);
      var k := order[|order| - 1];
      assert forall x :: x in order <==> x in init || x == k by {
        assert order == init + [k];
      }
    }
  }

  class App {
    /** The `components` map: its entries and their insertion order. */
    var components: map<string, Component>
    var order: seq<string>
    /** The names whose `destroy` has run, in order. */
    var destroyed: seq<string>
    /** The contact form's message field (absent off the contact page),
        whether a `name` field exists, the message's value, and whether the
        name field has focus. */
    const hasMessageField: bool
    const hasNameField: bool
    var message: string
    var nameFocused: bool

    ghost predicate Valid()
      reads this`components, this`order
    {
      && (forall k :: k in order <==> k in components)
      && (forall i, j :: 0 <= i < j < |order| ==> order[i] != order[j])
    }

    /** `new App()`: the registry starts empty and `init` runs at once; its
        synchronous part, up to the first `await`, is `initializeCore`, which
        registers the three core components. */
    constructor (hasMessageField: bool, hasNameField: bool, menu: Component, theme: Component, animations: Component)
      ensures Valid() && destroyed == []
      ensures components == map["menu" := menu, "theme" := theme, "animations" := animations]
      ensures order == ["menu", "theme", "animations"]
      ensures this.hasMessageField == hasMessageField && this.hasNameField == hasNameField
      ensures message == "" && !nameFocused
    {
      components := map[];
      order := [];
      destroyed := [];
      this.hasMessageField := hasMessageField;
      this.hasNameField := hasNameField;
      message := "";
      nameFocused := false;
      new;
      InitializeCore(menu, theme, animations);
    }

    /** `components.set(name, component)`: a new name goes last, an existing
        one keeps its place. */
    method Register(name: string, component: Component)
      requires Valid()
      modifies this`components, this`order
      ensures Valid() && components == old(components)[name := component]
      ensures order == if name in old(components) then old(order) else old(order) + [name]
    {
      if name !in components {
        order := order + [name];
      }
      components := components[name := component];
    }

    /** `initializeCore`: the menu, theme and animation managers. */
    method InitializeCore(menu: Component, theme: Component, animations: Component)
      requires Valid()
      modifies this`components, this`order
      ensures Valid()
      ensures components == old(components)["menu" := menu]["theme" := theme]["animations" := animations]
      ensures old(order) == [] ==> order == ["menu", "theme", "animations"]
    {
      ghost var startEmpty := order == [];
      assert startEmpty ==> "menu" !in components && "theme" !in components && "animations" !in components;
      Register("menu", menu);
      Register("theme", theme);
      Register("animations", animations);
    }

    /** `getComponent(name)`: `undefined` for an unknown name. */
    method GetComponent(name: string) returns (c: Option<Component>)
      ensures c.Some? <==> name in components
      ensures c.Some? ==> c.value == components[name]
    {
      c := if name in components then Some(components[name]) else None;
    }

    /** `destroy`: every component with a `destroy` has it called, in
        insertion order, and the registry is emptied. */
    method Destroy()
      requires Valid()
      modifies this`components, this`order, this`destroyed
      ensures Valid() && components == map[] && order == []
      ensures destroyed == old(destroyed) + DestroyOrder(old(order), old(components))
    {
      var i := 0;
      while i < |order|
        invariant 0 <= i <= |order|
        invariant components == old(components) && order == old(order)
        invariant destroyed == old(destroyed) + DestroyOrder(order[..i], components)
      {
        assert order[..i + 1][..i] == order[..i];
        if components[order[i]].hasDestroy {
          destroyed := destroyed + [order[i]];
        }
        i := i + 1;
      }
      assert order[..i] == order;
      components := map[];
      order := [];
    }

    /** `prefillInquiryMessage`: a truthy stored inquiry is copied into the
        message field, the name field (when there is one) is focused and
        the entry removed;
        otherwise only the storage probe happens. */
    method PrefillInquiryMessage(store: WebStorage.Store, parse: string -> Option<Json>)
      modifies this`message, this`nameFocused, store`items
      ensures var read := if store.available then WebStorage.ReadValue(WebStorage.Probed(old(store.items)), Lightbox.InquiryKey, JNull, parse) else JNull;
        && (hasMessageField && Truthy(read) ==>
              message == ToText(read) && nameFocused == (hasNameField || old(nameFocused))
              && store.items == WebStorage.Probed(old(store.items)) - {Lightbox.InquiryKey})
        && (!(hasMessageField && Truthy(read)) ==> message == old(message) && nameFocused == old(nameFocused))
        && (hasMessageField && !Truthy(read) && store.available ==> store.items == WebStorage.Probed(old(store.items)))
        && (!hasMessageField || !store.available ==> store.items == old(store.items))
    {
      if !hasMessageField {
        return;
      }
      var read := store.GetItem(Lightbox.InquiryKey, JNull, parse);
      if Truthy(read) {
        message := ToText(read);
        if hasNameField {
          nameFocused := true;
        }
        var _ := store.RemoveItem(Lightbox.InquiryKey);
      }
    }
  }
}
