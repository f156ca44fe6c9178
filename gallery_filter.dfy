/** docs/js/components/GalleryFilter.js: the category filter above the
    gallery grid. The filter keeps the active category; its buttons (one for
    "all", then one per configured category) show which is pressed; each
    gallery item is hidden or shown by its category, after a delay; and the
    active category is mirrored into the URL fragment as `category=<id>`. */
module GalleryFilter {
  import opened Wrappers
  import Strings

  /** A configured category: its id and its fallback label (`label`). */
  datatype Category = Category(id: string, caption: string)

  const All := "all"

  /** The first configured category with the given id
      (`categories.find(cat => cat.id === id)`). */
  function Find(categories: seq<Category>, id: string): (r: Option<Category>)
    ensures r.Some? ==> r.value in categories && r.value.id == id
    ensures r.None? <==> forall c :: c in categories ==> c.id != id
    ensures r.Some? ==> exists k :: 0 <= k < |categories| && categories[k] == r.value
                                    && forall j :: 0 <= j < k ==> categories[j].id != id
  {
    if categories == [] then None
    else if categories[0].id == id then Some(categories[0])
    else
      var r := Find(categories[1..], id);
      if r.Some? then
        var k :| 0 <= k < |categories| - 1 && categories[1..][k] == r.value
                 && forall j :: 0 <= j < k ==> categories[1..][j].id != id;
        assert forall j :: 0 <= j < k + 1 ==> categories[j].id != id by {
          forall j | 0 <= j < k + 1 ensures categories[j].id != id {
            if j > 0 { assert categories[j] == categories[1..][j - 1]; }
          }
        }
        assert categories[k + 1] == r.value;
        r
      else r
  }

  /** The ids of the configured categories, in order. */
  function Ids(categories: seq<Category>): (ids: seq<string>)
    ensures |ids| == |categories| && forall k :: 0 <= k < |ids| ==> ids[k] == categories[k].id
  {
    seq(|categories|, k requires 0 <= k < |categories| => categories[k].id)
  }

  /** `getLabel(id)` with the translation lookup `tr` (missing and empty
      translations are falsy). */
  function GetLabel(id: string, categories: seq<Category>, tr: string -> Option<string>): string {
    if id == All then Strings.OrElse(tr("gallery.filterAll"), "All Works")
    else
      var found := Find(categories, id);
      Strings.OrElse(tr("gallery.filters." + id),
                     Strings.OrElse(if found.Some? then Some(found.value.caption) else None, id))
  }

  /** The label is the translation when there is one; otherwise, for "all",
      "All Works"; otherwise the label of the first category with that id,
      and failing that the id itself. */
  lemma GetLabelOrder(id: string, categories: seq<Category>, tr: string -> Option<string>)
    ensures id == All && tr("gallery.filterAll").Some? && tr("gallery.filterAll").value != ""
            ==> GetLabel(id, categories, tr) == tr("gallery.filterAll").value
    ensures id == All && (tr("gallery.filterAll").None? || tr("gallery.filterAll").value == "")
            ==> GetLabel(id, categories, tr) == "All Works"
    ensures id != All && tr("gallery.filters." + id).Some? && tr("gallery.filters." + id).value != ""
            ==> GetLabel(id, categories, tr) == tr("gallery.filters." + id).value
    ensures id != All && (tr("gallery.filters." + id).None? || tr("gallery.filters." + id).value == "")
            ==> GetLabel(id, categories, tr)
                == if Find(categories, id).Some? && Find(categories, id).value.caption != ""
                   then Find(categories, id).value.caption else id
  {
  }

  /** The visibility rule of the transition: under "all" everything shows,
      otherwise exactly the items of the chosen category. */
  predicate ShouldShow(category: string, itemCategory: string) {
    category == All || itemCategory == category
  }

  // ------------------------------------------------------------ URL fragment

  /** The fragment `updateURL` writes: none for "all", otherwise
      `category=<id>`. */
  function FragmentFor(category: string): string {
    if category == All then "" else "category=" + category
  }

  /** A `name=value` pair of a query string; a pair without `=` has an empty
      value. */
  function SplitPair(pair: string): (kv: (string, string))
    ensures '=' !in pair ==> kv == (pair, "")
    ensures '=' in pair ==> '=' !in kv.0 && pair == kv.0 + "=" + kv.1
  {
    if '=' in pair then
      var i := Strings.FirstIndex(pair, '=');
      assert pair == pair[..i] + "=" + pair[i + 1..];
      (pair[..i], pair[i + 1..])
    else (pair, "")
  }

  /** A `+` in a query string stands for a space. */
  function PlusAsSpace(s: string): (r: string)
    ensures |r| == |s| && forall k :: 0 <= k < |s| ==> r[k] == if s[k] == '+' then ' ' else s[k]
    ensures '+' !in s ==> r == s
  {
    seq(|s|, k requires 0 <= k < |s| => if s[k] == '+' then ' ' else s[k])
  }

  /** The value of the first non-empty pair named `name`, names and values
      read with `+` as a space. */
  function FirstParam(pairs: seq<string>, name: string): Option<string> {
    if pairs == [] then None
    else if pairs[0] != "" && PlusAsSpace(SplitPair(pairs[0]).0) == name then Some(PlusAsSpace(SplitPair(pairs[0]).1))
    else FirstParam(pairs[1..], name)
  }

  /** `new URLSearchParams(query).get(name)`: a leading `?` is dropped and
      the rest split at `&`. */
  function ParamGet(query: string, name: string): Option<string> {
    var q := if query != "" && query[0] == '?' then query[1..] else query;
    FirstParam(Strings.Split(q, '&'), name)
  }

  /** The category `handleURLFilter` reads from the fragment (`|| 'all'`). */
  function ReadCategory(fragment: string): string {
    Strings.OrElse(ParamGet(fragment, "category"), All)
  }

  /** A fragment holding one `category` pair, with or without a leading
      `?`, reads as its value with `+` as a space. */
  lemma ReadPair(v: string)
    requires '&' !in v
    ensures ReadCategory("category=" + v) == Strings.OrElse(Some(PlusAsSpace(v)), All)
    ensures ReadCategory("?category=" + v) == Strings.OrElse(Some(PlusAsSpace(v)), All)
  {
    var f := "category" + "=" + v;
    assert "category=" + v == f;
    assert ("?category=" + v)[1..] == f;
    assert '&' !in f;
    SplitSingle(f, '&');
    PairPrefix("category", v);
    assert f != "" && f[0] == 'c' && SplitPair(f) == ("category", v);
    assert PlusAsSpace("category") == "category";
    assert [f][1..] == [] <= [f];
    assert FirstParam([f], "category") == Some(PlusAsSpace(v));
  }

  /** Reading back the fragment written for a category gives that category
      (an empty id reads as "all"), for ids without `&` or `+`. */
  lemma ReadWritten(category: string)
    requires '&' !in category && '+' !in category
    ensures ReadCategory(FragmentFor(category)) == if category == "" then All else category
  {
    if category != All {
      ReadPair(category);
      assert FragmentFor(category) == "category=" + category;
    } else {
      SplitSingle("", '&');
      assert [""][1..] == [] <= [""];
      assert ParamGet("", "category") == None;
    }
  }

  /** Splitting text without the separator gives the text itself. */
  lemma SplitSingle(s: string, sep: char)
    requires sep !in s
    ensures Strings.Split(s, sep) == [s]
  {
  }

  lemma PairPrefix(name: string, v: string)
    requires '=' !in name
    ensures SplitPair(name + "=" + v) == (name, v)
  {
    var p := name + "=" + v;
    Strings.FirstIndexAfter(name, '=', v);
    assert p[..|name|] == name && p[|name| + 1..] == v;
  }

  // ------------------------------------------------------------- counting

  /** The items whose `aria-hidden` is "false" (the announcement's
      `.gallery-item[aria-hidden="false"]`); items never filtered carry no
      such attribute. */
  function VisibleCount(ariaHidden: seq<Option<bool>>): nat {
    if ariaHidden == [] then 0
    else VisibleCount(ariaHidden[..|ariaHidden| - 1])
         + (if ariaHidden[|ariaHidden| - 1] == Some(false) then 1 else 0)
  }

  /** The number of items the filter for `category` shows. */
  function ShownCount(itemCats: seq<string>, category: string): nat {
    if itemCats == [] then 0
    else ShownCount(itemCats[..|itemCats| - 1], category)
         + (if ShouldShow(category, itemCats[|itemCats| - 1]) then 1 else 0)
  }

  /** Once the transition for `category` has run, the visible count is the
      number of items of that category. */
  lemma {:induction false} VisibleAfterTransition(itemCats: seq<string>, ariaHidden: seq<Option<bool>>, category: string)
    requires |ariaHidden| == |itemCats|
    requires forall k :: 0 <= k < |itemCats| ==> ariaHidden[k] == Some(!ShouldShow(category, itemCats[k]))
    ensures VisibleCount(ariaHidden) == ShownCount(itemCats, category)
  {
    if itemCats != [] {
      var n := |itemCats|;
      VisibleAfterTransition(itemCats[..n - 1], ariaHidden[..n - 1], category);
    }
  }

  /** The live-region text. */
  function Announcement(count: nat, name: string): string {
    "Showing " + Strings.NatToString(count) + " " + name + " artworks"
  }

  /** The announcement the filter evidently means: the number of items the
      new category shows. */
  function IntendedAnnouncement(itemCats: seq<string>, category: string, name: string): (text: string)
    ensures forall ah: seq<Option<bool>> ::
              |ah| == |itemCats| && (forall k :: 0 <= k < |itemCats| ==> ah[k] == Some(!ShouldShow(category, itemCats[k])))
              ==> text == Announcement(VisibleCount(ah), name)
  {
    var text := Announcement(ShownCount(itemCats, category), name);
    assert forall ah: seq<Option<bool>> ::
             |ah| == |itemCats| && (forall k :: 0 <= k < |itemCats| ==> ah[k] == Some(!ShouldShow(category, itemCats[k])))
             ==> VisibleCount(ah) == ShownCount(itemCats, category) by {
      forall ah: seq<Option<bool>> |
        |ah| == |itemCats| && (forall k :: 0 <= k < |itemCats| ==> ah[k] == Some(!ShouldShow(category, itemCats[k])))
        ensures VisibleCount(ah) == ShownCount(itemCats, category)
      {
        VisibleAfterTransition(itemCats, ah, category);
      }
    }
    text
  }

  /** `filterGallery` counts the visible items before the delayed transition
      has run, so the count is the previous filter's: with two items of
      categories "a" and "b", both shown under "all", filtering by "a"
      announces 2 although 1 item is shown. */
  lemma StaleAnnouncementCount()
    ensures VisibleCount([Some(false), Some(false)]) == 2
    ensures ShownCount(["a", "b"], "a") == 1
  {
    assert [Some(false), Some(false)][..1] == [Some(false)];
    assert ["a", "b"][..1] == ["a"];
  }

  // ------------------------------------------------------------ the filter

  class GalleryFilter {
    const categories: seq<Category>
    /** Both the filter container and the gallery grid were found. */
    const ready: bool
    /** An `onFilter` callback was given. */
    const hasCallback: bool
    /** The `data-category` of each gallery item. */
    const itemCats: seq<string>
    var activeCategory: string
    /** The `data-category`, text and pressed state (class `active` and
        `aria-pressed`) of each filter button, in order. */
    var buttonCats: seq<string>
    var labels: seq<string>
    var pressed: seq<bool>
    /** Per item: class `filtered-out`, and `aria-hidden` when set. */
    var filteredOut: seq<bool>
    var ariaHidden: seq<Option<bool>>
    /** The grid's `filtering` class and the transitions scheduled but not
        yet run, oldest first. */
    var filtering: bool
    var pending: seq<string>
    /** `location.hash` without `#`, and the fragments pushed to history. */
    var fragment: string
    var history: seq<string>
    var announcement: string
    /** The categories passed to `onFilter`. */
    var notified: seq<string>

    ghost predicate Valid()
      reads this`labels, this`buttonCats, this`pressed, this`filteredOut, this`ariaHidden
    {
      |labels| == |buttonCats| && |pressed| == |buttonCats|
      && |filteredOut| == |itemCats| && |ariaHidden| == |itemCats|
    }

    /** Exactly the buttons of category `c` are pressed. */
    ghost predicate PressedFor(c: string)
      reads this`buttonCats, this`pressed
      requires |pressed| == |buttonCats|
    {
      forall k :: 0 <= k < |buttonCats| ==> (pressed[k] <==> buttonCats[k] == c)
    }

    /** The filter on a page holding items of the given categories at the
        given URL fragment; with the container and grid present it renders
        its buttons and applies the fragment's category. */
    constructor (categories: seq<Category>, ready: bool, hasCallback: bool, itemCats: seq<string>,
                 fragment: string, tr: string -> Option<string>)
      ensures Valid() && this.categories == categories && this.itemCats == itemCats
      ensures !ready ==> activeCategory == All && buttonCats == [] && this.fragment == fragment
      ensures ready ==> buttonCats == [All] + Ids(categories)
      ensures ready ==> activeCategory == if Find(categories, ReadCategory(fragment)).Some? then ReadCategory(fragment)
                                          else All
    {
      this.categories := categories;
      this.ready := ready;
      this.hasCallback := hasCallback;
      this.itemCats := itemCats;
      activeCategory := All;
      buttonCats := [];
      labels := [];
      pressed := [];
      filteredOut := seq(|itemCats|, k => false);
      ariaHidden := seq(|itemCats|, k => None);
      filtering := false;
      pending := [];
      this.fragment := fragment;
      history := [];
      announcement := "";
      notified := [];
      new;
      if ready {
        Render(tr);
        HandleURLFilter(tr);
      }
    }

    /** `render`: the "all" button, pressed, then one unpressed button per
        category. */
    method Render(tr: string -> Option<string>)
      requires Valid()
      modifies this`buttonCats, this`labels, this`pressed
      ensures Valid() && buttonCats == [All] + Ids(categories)
      ensures pressed == [true] + seq(|categories|, k => false)
      ensures forall k :: 0 <= k < |buttonCats| ==> labels[k] == GetLabel(buttonCats[k], categories, tr)
    {
      var ids := Ids(categories);
      buttonCats := [All];
      labels := [GetLabel(All, categories, tr)];
      pressed := [true];
      var i := 0;
      while i < |ids|
        invariant 0 <= i <= |ids|
        invariant buttonCats == [All] + ids[..i] && |labels| == i + 1
        invariant pressed == [true] + seq(i, k => false)
        invariant forall k :: 0 <= k <= i ==> labels[k] == GetLabel(buttonCats[k], categories, tr)
      {
        buttonCats := buttonCats + [ids[i]];
        labels := labels + [GetLabel(ids[i], categories, tr)];
        pressed := pressed + [false];
        assert ids[..i + 1] == ids[..i] + [ids[i]];
        i := i + 1;
      }
      assert ids[..i] == ids;
    }

    /** `updateButtonLabels`, after a language change. */
    method UpdateButtonLabels(tr: string -> Option<string>)
      requires Valid()
      modifies this`labels
      ensures Valid()
      ensures forall k :: 0 <= k < |buttonCats| ==> labels[k] == GetLabel(buttonCats[k], categories, tr)
    {
      var i := 0;
      while i < |buttonCats|
        invariant 0 <= i <= |buttonCats| && Valid()
        invariant forall k :: 0 <= k < i ==> labels[k] == GetLabel(buttonCats[k], categories, tr)
      {
        labels := labels[i := GetLabel(buttonCats[i], categories, tr)];
        i := i + 1;
      }
    }

    /** `updateButtonStates(c)`. */
    method UpdateButtonStates(c: string)
      requires Valid()
      modifies this`pressed
      ensures Valid() && PressedFor(c)
    {
      var i := 0;
      while i < |buttonCats|
        invariant 0 <= i <= |buttonCats| && Valid()
        invariant forall k :: 0 <= k < i ==> (pressed[k] <==> buttonCats[k] == c)
      {
        pressed := pressed[i := buttonCats[i] == c];
        i := i + 1;
      }
    }

    /** The first phase of `animateFilterTransition`: the grid fades and the
        visibility change is scheduled. */
    method AnimateFilterTransition(c: string)
      modifies this`filtering, this`pending
      ensures filtering && pending == old(pending) + [c]
    {
      filtering := true;
      pending := pending + [c];
    }

    /** The scheduled visibility change firing: the oldest pending category
        decides every item's `filtered-out` class and `aria-hidden`, and the
        grid stops fading. */
    method RunTransition()
      requires Valid() && pending != []
      modifies this`filteredOut, this`ariaHidden, this`filtering, this`pending
      ensures Valid() && !filtering && pending == old(pending)[1..]
      ensures forall k :: 0 <= k < |itemCats| ==>
                filteredOut[k] == !ShouldShow(old(pending)[0], itemCats[k])
                && ariaHidden[k] == Some(!ShouldShow(old(pending)[0], itemCats[k]))
    {
      var c := pending[0];
      var i := 0;
      while i < |itemCats|
        invariant 0 <= i <= |itemCats| && Valid() && pending == old(pending)
        invariant forall k :: 0 <= k < i ==>
                    filteredOut[k] == !ShouldShow(c, itemCats[k]) && ariaHidden[k] == Some(!ShouldShow(c, itemCats[k]))
      {
        var show := ShouldShow(c, itemCats[i]);
        filteredOut := filteredOut[i := !show];
        ariaHidden := ariaHidden[i := Some(!show)];
        i := i + 1;
      }
      pending := pending[1..];
      filtering := false;
    }

    /** `updateURL(c)`: writes the fragment and pushes it to history. */
    method UpdateURL(c: string)
      modifies this`fragment, this`history
      ensures fragment == FragmentFor(c) && history == old(history) + [FragmentFor(c)]
    {
      fragment := FragmentFor(c);
      history := history + [fragment];
    }

    /** `announceFilter(c)`: the live region reports the items whose
        `aria-hidden` is "false" now, under the category's label. */
    method AnnounceFilter(c: string, tr: string -> Option<string>)
      modifies this`announcement
      ensures announcement == Announcement(VisibleCount(ariaHidden), GetLabel(c, categories, tr))
    {
      announcement := Announcement(VisibleCount(ariaHidden), GetLabel(c, categories, tr));
    }

    /** What `filterGallery(c)` leaves, against the state before it: the
        category active and, when it was not already, its buttons pressed,
        its transition queued, the URL written and pushed, the visible count
        announced and the callback told. */
    twostate predicate FilteredTo(c: string, tr: string -> Option<string>)
      reads this
    {
      activeCategory == c
      && (c == old(activeCategory) ==>
            pressed == old(pressed) && filtering == old(filtering) && pending == old(pending)
            && fragment == old(fragment) && history == old(history)
            && announcement == old(announcement) && notified == old(notified))
      && (c != old(activeCategory) ==>
            |pressed| == |buttonCats| && PressedFor(c) && filtering && pending == old(pending) + [c]
            && fragment == FragmentFor(c) && history == old(history) + [FragmentFor(c)]
            && announcement == Announcement(VisibleCount(ariaHidden), GetLabel(c, categories, tr))
            && notified == old(notified) + (if hasCallback then [c] else []))
    }

    /** `filterGallery(c)`: nothing for the active category; otherwise the
        category becomes active, its buttons are pressed, the transition is
        scheduled, the URL updated, the live region told the number of items
        visible at that moment and the callback called. */
    method FilterGallery(c: string, tr: string -> Option<string>)
      requires Valid()
      modifies this`activeCategory, this`pressed, this`filtering, this`pending, this`fragment,
               this`history, this`announcement, this`notified
      ensures Valid()
      ensures activeCategory == c
      ensures c == old(activeCategory) ==>
                unchanged(this`pressed, this`filtering, this`pending, this`fragment, this`history,
                          this`announcement, this`notified)
      ensures c != old(activeCategory) ==> PressedFor(c)
      ensures c != old(activeCategory) ==> filtering && pending == old(pending) + [c]
      ensures c != old(activeCategory) ==> fragment == FragmentFor(c) && history == old(history) + [FragmentFor(c)]
      ensures c != old(activeCategory) ==>
                announcement == Announcement(VisibleCount(ariaHidden), GetLabel(c, categories, tr))
      ensures c != old(activeCategory) ==> notified == old(notified) + (if hasCallback then [c] else [])
    {
      if activeCategory != c {
        activeCategory := c;
        UpdateButtonStates(c);
        AnimateFilterTransition(c);
        UpdateURL(c);
        AnnounceFilter(c, tr);
        if hasCallback {
          notified := notified + [c];
        }
      }
    }

    /** `handleURLFilter`: the fragment's category is applied when it is
        "all" or a configured id. */
    method HandleURLFilter(tr: string -> Option<string>)
      requires Valid()
      modifies this`activeCategory, this`pressed, this`filtering, this`pending, this`fragment,
               this`history, this`announcement, this`notified
      ensures Valid()
      ensures var c := ReadCategory(old(fragment));
        (Find(categories, c).Some? || c == All) ==> FilteredTo(c, tr)
      ensures var c := ReadCategory(old(fragment));
        (Find(categories, c).None? && c != All) ==> unchanged(this)
    {
      var c := ReadCategory(fragment);
      if Find(categories, c).Some? || c == All {
        FilterGallery(c, tr);
      }
    }

    /** The `popstate` listener: a back or forward move restores the
        fragment `f` without a history entry, then `handleURLFilter` runs.
        A move to another applicable category filters to it, and that
        `filterGallery` pushes a new entry; any other move only restores
        the fragment. */
    method Popstate(f: string, tr: string -> Option<string>)
      requires Valid()
      modifies this`activeCategory, this`pressed, this`filtering, this`pending, this`fragment,
               this`history, this`announcement, this`notified
      ensures Valid()
      ensures var c := ReadCategory(f);
        (Find(categories, c).Some? || c == All) && c != old(activeCategory) ==> FilteredTo(c, tr)
      ensures var c := ReadCategory(f);
        !((Find(categories, c).Some? || c == All) && c != old(activeCategory)) ==>
          fragment == f && activeCategory == old(activeCategory)
          && pressed == old(pressed) && filtering == old(filtering) && pending == old(pending)
          && history == old(history) && announcement == old(announcement) && notified == old(notified)
    {
      fragment := f;
      HandleURLFilter(tr);
    }

    /** `reset`. */
    method Reset(tr: string -> Option<string>)
      requires Valid()
      modifies this`activeCategory, this`pressed, this`filtering, this`pending, this`fragment,
               this`history, this`announcement, this`notified
      ensures Valid() && FilteredTo(All, tr)
      ensures old(activeCategory) != All ==> fragment == "" && history == old(history) + [""]
    {
      FilterGallery(All, tr);
    }
  }
}
