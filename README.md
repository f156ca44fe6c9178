# Branchstone in Dafny

Branchstone is a small static site for an art gallery. It has a browser
front end, an offline service worker and a few Node build scripts that
prepare the images. This project models the parts of it that hold
sequential logic, and proves what each part promises:

- **The service worker** (`docs/sw.js`). It routes same-origin GET
  requests to three caching strategies over named cache partitions. It
  fills the static cache on install and deletes stale caches on activation.
- **The UI components**. These are the lightbox viewer, the home-page
  carousel, the mobile menu, the gallery category filter, the theme
  toggle and the pre-render theme choice.
- **Validators and lookups**. These are the contact-form validator, the
  dotted-key translation lookup (both the module version and the older
  `public/` script), the `localStorage` wrapper, the data API, the
  responsive-picture rules of the gallery and the page dispatch of the
  application shell.
- **The older page script** `docs/js/main.js`, where it repeats the
  lightbox, the menu, the page titles, the theme toggle and the inquiry
  hand-off.
- **The build scripts**. These cover the srcset generation and
  `artworks.json` rewrite, the responsive-variant generator, the WebP
  converter and the two in-place RGBA logo loops.

There is one module per source file. Each takes the source's own form: an
object whose methods update its fields is a `class`, and a loop is a
`method` with its invariants, proved against a specification function.
Pure code is functions and lemmas. Shared modules hold what several
files rely on:

| module | holds |
|---|---|
| `Wrappers` | `Option` and `Result`, standing for `null`/`undefined` and thrown errors |
| `Strings` | the JavaScript string methods the site uses |
| `Json` | `JSON.parse` values with JavaScript truthiness |
| `WebStorage` | `localStorage` and the wrapper over it |
| `FsTree` | the directory trees the scripts walk |
| `ImageNames` | extension stripping and the variant tag |
| `Batching` | the five-at-a-time loops |
| `ArtworkSrcsets` | the shared `artworks.json` rewrite |
| `Pixels` | the RGBA scan |

Everything the code hands to the browser, the file system or an image
library is a parameter of the model. That covers `fetch`, `JSON.parse`,
`matchMedia`, `readdir`, `fs.access`, `sharp` and the regular-expression
tests that are not written out.

## Model

| member | source | states |
|---|---|---|
| WebStorage.Probed | docs/js/utils/storage.js:12-22 | after the availability probe every entry is as before except `__storage_test__`, which is gone |
| WebStorage.ReadValue | docs/js/utils/storage.js:37-46 | a missing key reads as the default; stored text that parses reads as the parsed value; other text reads as itself |
| WebStorage.Serialize | docs/js/utils/storage.js:67 | a string is stored verbatim |
| WebStorage.SetThenGetText | docs/js/utils/storage.js:39-68 | a string that is not JSON text, once set, reads back as that same string |
| WebStorage.SetThenGet | docs/js/utils/storage.js:39-68 | any set value reads back as the parse of its serialization, or as the serialization itself when it does not parse |
| WebStorage.ProbeKeyIsNeverReadBack | docs/js/utils/storage.js:12-22 | a value set under the probe key is removed by the next call's probe and reads as the default |
| WebStorage.RemoveThenGet | docs/js/utils/storage.js:82-94 | after removing a key it reads as the default; every other (non-probe) key reads as before |
| WebStorage.Store.GetItem | docs/js/utils/storage.js:31-51 | unavailable storage returns the default and changes nothing; otherwise the probe runs and the result is `ReadValue` |
| WebStorage.Store.SetItem | docs/js/utils/storage.js:60-74 | `false` when storage is unavailable (nothing changes) or when the write throws because the store has no room for it (the store is as the probe left it); otherwise `true`, and the store is the probed store with the serialized value under the key |
| WebStorage.Store.RemoveItem | docs/js/utils/storage.js:82-94 | succeeds exactly when storage is available; then the key is gone |
| WebStorage.Store.Clear | docs/js/utils/storage.js:101-113 | succeeds exactly when storage is available and the store is then empty; otherwise it is unchanged |
| ThemeInit.SystemTheme | docs/js/theme-init.js:18-23 | dark exactly when `matchMedia` exists and the dark-scheme query matches; otherwise light |
| ThemeInit.ThemePreferenceCases | docs/js/theme-init.js:29-44 | the applied theme is always dark or light; a stored "dark"/"light" is used as is; a missing or foreign entry, or storage that throws, gives the system preference |
| Theme.InitialTheme | docs/js/components/Theme.js:39-45 | always dark or light; the stored value only when it is exactly "light" or "dark", the system preference otherwise |
| Theme.NextTheme | docs/js/components/Theme.js:87-94 | light exactly when the current theme is dark; always dark or light |
| Theme.ToggleTwice | docs/js/components/Theme.js:87-94 | toggling twice from light or dark restores the theme |
| Theme.StoredThemeIsRestored | docs/js/components/Theme.js:39-45 | a theme the toggle stored is the initial theme of the next load |
| Theme.ToggleLabel | docs/js/components/Theme.js:111-116 | the label is "Switch to light mode" exactly when the theme is dark |
| Theme.ForeignValueStopsWatching | docs/js/components/Theme.js:71-76 | with "blue" stored the theme is the system's, yet no system-preference listener is installed (see Findings) |
| Theme.IntendedWatchFollowsChoice | docs/js/components/Theme.js:71-76 | with the corrected guard, the page watches the system exactly when the initial theme is the system's for every system setting |
| Theme.ThemeManager.constructor | docs/js/components/Theme.js:15-32 | the initial theme comes from storage; with a toggle it is applied, its label set, and the listener installed exactly when the guard holds |
| Theme.ThemeManager.WatchSystemPreference | docs/js/components/Theme.js:71-82 | without `matchMedia` nothing happens; otherwise a listener is installed exactly when storage holds nothing truthy |
| Theme.ThemeManager.ApplyTheme | docs/js/components/Theme.js:100-116 | sets the current theme, the document's `data-theme` and the toggle's label |
| Theme.ThemeManager.ToggleTheme | docs/js/components/Theme.js:87-94 | the next theme is applied; it is written under `theme` when storage accepts the write, a refused write leaving the probed store and unavailable storage the store as it was |
| Theme.ThemeManager.SystemChanged | docs/js/components/Theme.js:78-81 | a system change applies the matching theme, with the document's `data-theme` and the toggle's label, without storing it |
| Api.FetchJson | docs/js/services/api.js:16-35 | resolves exactly for an `ok` response with a JSON body, to that body; a failed fetch and a non-`ok` status reject with their own errors |
| Api.SliceEnd | docs/js/services/api.js:56 | `slice(0, count)` stops at `count` clamped to the length, and a negative count counts back from the end |
| Api.GetFeatured | docs/js/services/api.js:54-57 | fetch errors propagate; `null` and values other than arrays and strings reject; an array gives its first `min(count, len)` artworks in order and a string its first characters, `count` defaulting to six |
| Api.FindByIdMeans | docs/js/services/api.js:66 | the artwork found is the first with a matching id, every earlier one is non-null and does not match; nothing is found exactly when no artwork matches and none is null |
| Api.FindByIdFound | docs/js/services/api.js:66 | an artwork found is the first with a matching id, and every earlier one is non-null and does not match |
| Api.FindByIdNone | docs/js/services/api.js:66 | nothing is found, without a rejection, exactly when no artwork matches and none is null |
| Api.GetById | docs/js/services/api.js:64-67 | fetch errors propagate; the result is the first artwork whose id matches, and `null` exactly when none matches |
| Api.GetLanguage | docs/js/services/api.js:87-90 | the language's entry when truthy, otherwise the default language's; fetch errors propagate and a `null` document rejects |
| Api.Submit | docs/js/services/api.js:102-121 | resolves, to `{success: true}`, exactly for an `ok` response; a failed fetch or a non-`ok` response rejects |
| App.PageInits | docs/js/app.js:68-90 | each page starts exactly when its own check on the path holds (home for a path ending `index.html` or `/`), independently of the others, in the source's order |
| App.ItemsPerView | docs/js/app.js:118-123 | between 1 and 3; 1 exactly up to 768 pixels, 3 exactly above 1024 |
| App.ItemsPerViewMonotone | docs/js/app.js:118-123 | a wider window never shows fewer items |
| App.ResizeAsWritten | docs/js/app.js:136-143 | the resize callback throws exactly when the carousel has no `recalculate`, and otherwise lays it out for the new width |
| App.ResizeAlwaysThrows | docs/js/app.js:139-141 | as written, every resize of the home page throws, since a carousel has no `recalculate` (see Findings) |
| App.ResizeIntended | docs/js/app.js:116-143 | corrected callback: the carousel is laid out again with the construction breakpoints, 1 item up to 768 pixels and 3 above 1024 |
| App.ResizeIntendedFollowsWindow | docs/js/app.js:116-143 | the corrected callback is the written one on a carousel with a `recalculate`, never throws, and a wider window never shows fewer items |
| App.InquiryHandOff | docs/js/app.js:317-327 | the inquiry the lightbox stores raw reads back as the same, non-empty, text, so the contact page takes it |
| App.DestroyOrderMeans | docs/js/app.js:480-487 | `destroy` reaches exactly the registered components that have a `destroy`, each once |
| App.App.constructor | docs/js/app.js:22-62 | `new App()` runs `init` at once; its synchronous part registers the menu, theme and animation managers, in that order, and nothing is destroyed |
| App.App.Register | docs/js/app.js:53 | `Map.set`: the entry is replaced; a new name goes last in iteration order, an existing one keeps its place |
| App.App.InitializeCore | docs/js/app.js:50-62 | registers the menu, theme and animation managers under their names, in that order on an empty registry |
| App.App.GetComponent | docs/js/app.js:473-475 | the registered component, or nothing for an unknown name |
| App.App.Destroy | docs/js/app.js:480-487 | `destroy` is called on every component that has one, in insertion order, and the registry is left empty |
| App.App.PrefillInquiryMessage | docs/js/app.js:317-327 | with a message field and a truthy stored inquiry: it is copied into the field, the name field focused when it exists and the entry removed; otherwise nothing but the storage probe changes |
| Gallery.ToWebP | docs/js/components/Gallery.js:138 | only a trailing `.jpg`/`.jpeg`, in any case, is replaced by `.webp`; any other path is returned unchanged |
| Gallery.WebPSourceRules | docs/js/components/Gallery.js:145-159 | an explicit `srcset.webp` gives the first source with `sizes`; otherwise a JPEG image source gives a derived `.webp` source without `sizes` |
| Gallery.SourcePresence | docs/js/components/Gallery.js:145-169 | one WebP source exactly when one is given or derived, one JPEG source exactly when `srcset.jpeg` is given, WebP before JPEG |
| Gallery.ImgRules | docs/js/components/Gallery.js:171-203 | the image source is `thumb \|\| image` with thumbnails, `image` otherwise; width/height default to 400/500; `fetchpriority` exactly for priority images; a placeholder exactly when `lqip` is truthy |
| Gallery.DatasetRules | docs/js/components/Gallery.js:283-295 | `category` defaults to "uncategorized"; `price` is present exactly when truthy, `images` exactly when non-empty, and their values are the artwork's |
| Gallery.GalleryItemRules | docs/js/components/Gallery.js:277-331 | building throws exactly for a `null` artwork, a missing or `null` `available`, or a throwing picture; the image is eager and high-priority exactly above the fold (8 items from 768 pixels, else 4); the sold marker exactly when `available` is falsy |
| Gallery.FeaturedItemRules | docs/js/components/Gallery.js:241-268 | building throws exactly for a `null` artwork or a throwing picture; the image loads eagerly exactly for the first three and never with high priority; the label names the title, and the heading and paragraph carry the title's and size's child text, a string title as it is and a missing or numeric size as nothing |
| Gallery.ChildText | docs/js/utils/dom.js:67-75 | a string child is its own text, an array gives the text of its string items in order, any other value adds nothing |
| Gallery.StringItemsAppend | docs/js/utils/dom.js:68-75 | the text of an array of children is the texts of its parts in order |
| Gallery.StringItemsOne | docs/js/utils/dom.js:70-74 | one string child gives its string, any other single child nothing |
| Gallery.StringItemsNone | docs/js/utils/dom.js:70-74 | an array without strings adds no text |
| Gallery.AllRenderMeans | docs/js/components/Gallery.js:103-115 | `render` completes exactly when every artwork builds |
| Gallery.EagerCards | docs/js/components/Gallery.js:103-115 | rendering `n` artworks gives `n` cards, of which exactly the first `limit` load eagerly |
| Gallery.BuilderLoading | docs/js/components/Gallery.js:107-109 | the grid loads eagerly exactly below the above-fold count, the featured strip below three |
| Gallery.RenderedEagerCount | docs/js/components/Gallery.js:103-115 | a rendered gallery has `min(n, 8 or 4)` eager grid images or `min(n, 3)` eager featured ones |
| Gallery.WithoutSkeletons | docs/js/components/Gallery.js:70-75 | no skeleton remains and nothing is added |
| Gallery.WithoutSkeletonsAppend | docs/js/components/Gallery.js:70-75 | removing skeletons distributes over appending children, so other children keep their order |
| Gallery.WithoutSkeletonsKeeps | docs/js/components/Gallery.js:70-75 | removing skeletons from children that have none changes nothing |
| Gallery.OnlySkeletons | docs/js/components/Gallery.js:70-75 | removing skeletons from a container of skeletons leaves it empty |
| Gallery.FetchedArtworks | docs/js/components/Gallery.js:90-95 | the featured gallery loads `getFeatured()`, the full one the whole list; either must give an array to be rendered |
| Gallery.Gallery.constructor | docs/js/components/Gallery.js:18-28 | initialising either replaces the skeletons by the cards, marks the gallery loaded and runs the callback once, or shows only the error box |
| Gallery.Gallery.Init | docs/js/components/Gallery.js:51-64 | on success the skeletons are replaced by the cards, the gallery is loaded and the callback runs; on any failure only the error box remains |
| Gallery.Gallery.HideSkeletons | docs/js/components/Gallery.js:70-75 | every skeleton is removed, the other children stay in order |
| Gallery.Gallery.Render | docs/js/components/Gallery.js:103-115 | succeeds exactly when every artwork builds, appending their cards in order; a throwing artwork leaves the container as it was |
| Gallery.Gallery.RenderError | docs/js/components/Gallery.js:337-358 | the container holds only the error box with the type's message |
| Gallery.Gallery.Clear | docs/js/components/Gallery.js:363-365 | the container is emptied |
| Gallery.Gallery.ShowSkeletons | docs/js/components/Gallery.js:380-415 | `gallery-loaded` is removed and exactly four skeletons are appended |
| Gallery.Gallery.Reload | docs/js/components/Gallery.js:370-374 | a successful reload leaves exactly the cards, with no skeleton behind; a failed one only the error box |
| GalleryFilter.Find | docs/js/components/GalleryFilter.js:81 | the category found is the first with the id; nothing is found exactly when no category has that id |
| GalleryFilter.GetLabelOrder | docs/js/components/GalleryFilter.js:76-83 | the translation when it is non-empty; otherwise "All Works" for `all`, and for other ids the label of the first category with that id, else the id itself |
| GalleryFilter.SplitPair | docs/js/components/GalleryFilter.js:255 | a query pair splits at its first `=`; without one the value is empty |
| GalleryFilter.PlusAsSpace | docs/js/components/GalleryFilter.js:255 | `URLSearchParams` reads every `+` as a space and keeps every other character; a text without `+` is unchanged |
| GalleryFilter.ReadPair | docs/js/components/GalleryFilter.js:254-256 | a fragment holding one `category` pair, with or without a leading `?`, reads as its value with `+` as spaces, and an empty value as `all` |
| GalleryFilter.ReadWritten | docs/js/components/GalleryFilter.js:239-261 | reading back the fragment `updateURL` wrote for a category (without `&` or `+`) gives that category; `all` writes no fragment and reads back as `all` |
| GalleryFilter.VisibleAfterTransition | docs/js/components/GalleryFilter.js:217-231 | once a category's transition has run, the `aria-hidden="false"` count is the number of items that category shows |
| GalleryFilter.IntendedAnnouncement | docs/js/components/GalleryFilter.js:268-279 | corrected announcement: the count of items the new category shows, which equals the visible count once its transition has run (see Findings) |
| GalleryFilter.StaleAnnouncementCount | docs/js/components/GalleryFilter.js:182 | as written, the announcement counts the previous filter's items: two items shown under `all`, filtered by `a`, announce 2 while 1 will be shown |
| GalleryFilter.GalleryFilter.constructor | docs/js/components/GalleryFilter.js:17-42 | the active category starts as `all`; with the container and grid present the buttons are rendered (`all` first, then the configured ids) and the fragment's category is applied when it is `all` or configured |
| GalleryFilter.GalleryFilter.Render | docs/js/components/GalleryFilter.js:89-123 | the `all` button, pressed, then one unpressed button per category, each labelled by `getLabel` |
| GalleryFilter.GalleryFilter.UpdateButtonLabels | docs/js/components/GalleryFilter.js:62-68 | every button's text becomes `getLabel` of its category |
| GalleryFilter.GalleryFilter.UpdateButtonStates | docs/js/components/GalleryFilter.js:195-202 | exactly the buttons whose category is `c` are pressed |
| GalleryFilter.GalleryFilter.AnimateFilterTransition | docs/js/components/GalleryFilter.js:210-215 | the grid starts fading and the visibility change for `c` is scheduled |
| GalleryFilter.GalleryFilter.RunTransition | docs/js/components/GalleryFilter.js:217-231 | the scheduled change hides exactly the items that should not show (class and `aria-hidden`) and the grid stops fading |
| GalleryFilter.GalleryFilter.UpdateURL | docs/js/components/GalleryFilter.js:239-247 | the fragment is cleared for `all` and `category=<c>` otherwise, and pushed to history |
| GalleryFilter.GalleryFilter.AnnounceFilter | docs/js/components/GalleryFilter.js:268-279 | the live region reports the number of items with `aria-hidden="false"` at that moment, under the category's label |
| GalleryFilter.GalleryFilter.FilterGallery | docs/js/components/GalleryFilter.js:167-188 | the active category is a no-op; otherwise it becomes active, its buttons are pressed, the transition scheduled, the URL updated, the announcement made and the callback told |
| GalleryFilter.GalleryFilter.HandleURLFilter | docs/js/components/GalleryFilter.js:253-261 | the fragment's `category`, read as `URLSearchParams` reads it (a leading `?` dropped, `+` as a space), with an empty or missing value meaning `all`, is applied exactly as `filterGallery` applies it when it is `all` or a configured id; otherwise nothing changes |
| GalleryFilter.GalleryFilter.Popstate | docs/js/components/GalleryFilter.js:157-160 | a back or forward move restores the fragment and re-reads it: an applicable category other than the active one is filtered to exactly as `filterGallery` does (pushing a new history entry); otherwise only the fragment changes |
| GalleryFilter.GalleryFilter.Reset | docs/js/components/GalleryFilter.js:292-294 | `filterGallery('all')`: a no-op when `all` is active; otherwise `all` becomes active with exactly its buttons pressed, the transition scheduled, the fragment cleared and pushed to history, the announcement made and the callback told |
| I18n.Resolve | docs/js/i18n.js:39-52 | on a document that is not `null`, `get` returns only truthy values; `null` otherwise |
| I18n.StopsAtNonObject | docs/js/i18n.js:43-49 | a walk that meets anything but a truthy object before a remaining segment returns `null`, whatever follows |
| I18n.SingleSegment | docs/js/i18n.js:39-52 | a key without dots is the language object's property when truthy, else `null` |
| I18n.TwoSegments | docs/js/i18n.js:39-52 | a key `a.b` is property `b` of the object or array at `a`, when both exist and the leaf is truthy; otherwise `null` |
| I18n.Property | docs/js/i18n.js:44-45 | an object gives its own property; an array gives its `length`, and nothing for a name that is neither `length` nor the decimal text of an index; a primitive gives nothing |
| I18n.ElementByIndex | docs/js/i18n.js:44-45 | on an array the segment `"3"` gives element 3 |
| I18n.IndexNamed | docs/js/i18n.js:44-45 | finds the index below the length whose decimal text is the segment, and finds none exactly when no index prints as it |
| Strings.NatToStringInjective | docs/js/i18n.js:44-45 | no two indices print alike, so a segment names at most one element |
| I18n.Get | docs/js/i18n.js:39-52 | throws exactly on a `null` document, where `translations[lang]` fails; otherwise the segment loop returns exactly `Resolve`'s value |
| I18n.TrimAll | docs/js/i18n.js:71 | every line is trimmed of ECMAScript white space and line terminators, none dropped |
| I18n.KeepMembers | docs/js/i18n.js:83 | `filter` keeps exactly the input's lines that pass the test: every passing line is kept and no other |
| I18n.KeepAppend | docs/js/i18n.js:83 | filtering keeps the order: a concatenation is filtered part by part |
| I18n.KeepAt | docs/js/i18n.js:83 | a passing line sits in the filtered list right after the passing lines before it |
| I18n.KeepSource | docs/js/i18n.js:83 | the k-th kept line is a passing line with exactly k passing lines before it |
| I18n.ParagraphsFromLines | docs/js/i18n.js:80-89 | in a block with `<p>` children, each non-blank line that has a paragraph at its position (the number of non-blank lines before it) is written there trimmed; paragraphs past the non-blank lines keep their text; the markup stays |
| I18n.ParagraphSource | docs/js/i18n.js:83-89 | each paragraph filled there comes from a non-blank line, trimmed, with exactly as many non-blank lines before it as the paragraph's position |
| I18n.TitleLines | docs/js/i18n.js:68-71 | a one-line home title is its trimmed text; two lines become the trimmed lines joined by `<br>` |
| I18n.Translate | docs/js/i18n.js:68-98 | `home.title` gets its lines joined by `<br>`; inputs and placeholders get the text as is; a button gets it as its `textContent`, which drops its child markup; a block without line breaks gets the text, one with them paragraphs |
| I18n.Outcome | docs/js/i18n.js:62-98 | a missing translation leaves the element alone and a string is written by `Translate`; any other value throws exactly at the home title's `split` and in the block branch (unless it is an array without a `"\n"` item, whose own `includes` answers), and is otherwise written as `String(v)`, a block or a button losing its child markup |
| I18n.Throwing | docs/js/i18n.js:61-65 | one flag per element, set exactly when that element's update throws |
| I18n.FirstTrueFrom | docs/js/i18n.js:61 | the first set flag at or after the start, with none set before it |
| I18n.StopAt | docs/js/i18n.js:61-99 | the `forEach` stops at the first element whose update throws, every element before it updating without a throw, or runs to the end |
| I18n.NullDocumentStops | docs/js/i18n.js:39-65 | with `null` translations every element's update throws, so the `forEach` stops at the first element |
| I18n.StringsNeverThrow | docs/js/i18n.js:61-99 | on a document that is not `null`, when every translation found is a string the page is translated to the end, each element by `Translate` |
| I18n.ToggleLang | docs/js/i18n.js:131 | `en` becomes `ua` and every other value `en`; the choice is always supported |
| I18n.ToggleTwice | docs/js/i18n.js:131 | toggling twice from a supported language comes back to it |
| I18n.I18n.constructor | docs/js/i18n.js:13-31 | the language is the stored value when truthy, else `en`; when the translations load, the elements are updated in order up to the first that throws; only when none throws is the document's `lang` set and, with a toggle, its options marked and its listener attached (`init` catches the throw) |
| I18n.I18n.ApplyTranslations | docs/js/i18n.js:58-103 | the elements before the first throwing update get their `Outcome`, the rest stay; `ok` exactly when none throws, and only then is the document's `lang` the current language |
| I18n.I18n.Switch | docs/js/i18n.js:109-118 | an unsupported language changes nothing; a supported one becomes current, is stored under `language` when storage accepts it (a refused write leaves the probed store), and the page is translated again up to the first throwing update |
| I18n.I18n.UpdateLanguageToggle | docs/js/i18n.js:142-151 | the label names the current language and exactly the options whose `data-lang` is the current language are active |
| I18n.I18n.ToggleClick | docs/js/i18n.js:130-134 | without an attached listener nothing happens; otherwise the click switches to the toggled language (the elements, the document's `lang` and the stored `language` exactly as `switch` leaves them) and, when the new translation did not throw, names that language in the label and marks exactly its options active, else the toggle is left as it was |
| I18n.I18n.UpdateElement | docs/js/i18n.js:62-98 | one element's update throws on a `null` document and is otherwise its `Outcome` under the current translations |
| PublicTranslations.InitialLang | public/js/translations.js:3 | the stored `language` text when non-empty, else `en` |
| PublicTranslations.Page.constructor | public/js/translations.js:1-3 | `localStorage.getItem` runs first: with storage blocked it throws and the script stops, so nothing is loaded or attached later; otherwise there are no translations yet and the language is `InitialLang` of storage |
| PublicTranslations.Page.GetTranslation | public/js/translations.js:17-30 | throws on a `null` document; otherwise the same dotted-key lookup as docs/js/i18n.js, returning only truthy values |
| PublicTranslations.Page.LoadTranslations | public/js/translations.js:6-14 | a failed load, or a script stopped by blocked storage, changes nothing; a successful one stores the translations and updates the elements up to the first throwing update (the throw is caught), setting the document's `lang` and the toggle text only when none throws |
| PublicTranslations.Page.ApplyTranslations | public/js/translations.js:33-82 | the elements before the first throwing update get the shared `Outcome`, the rest stay; only when none throws are the toggle text ("EN \| UA" for both languages) and the document's `lang` set |
| PublicTranslations.Page.SwitchLanguage | public/js/translations.js:85-89 | any language, with no validation, becomes current; the raw `setItem` then stores it when storage is usable and has room, and otherwise throws before the page is translated again; after a stored write the page is translated up to the first throwing update |
| PublicTranslations.Page.UpdateElement | public/js/translations.js:37-71 | one element's update throws on a `null` document and is otherwise the shared `Outcome` under the current translations |
| PublicTranslations.Page.ToggleClick | public/js/translations.js:95-100 | with the toggle present, `en` becomes `ua` and anything else `en`, and the switch is exactly `SwitchLanguage` of the new language; without it, or once the script has stopped, nothing happens |
| Menu.LastSegment | docs/js/components/Menu.js:192 | `split('/').pop()`: a suffix of the path that holds no `/` |
| Menu.PageTitle | docs/js/components/Menu.js:192-200 | the title is always one of Home, Gallery, About, Contact |
| Menu.PageTitleCases | docs/js/components/Menu.js:192-202 | only the last segment matters; the three pages map to their titles; an empty segment, `index.html` and any unknown page give Home; the key is `nav.` plus the lower-cased title |
| Menu.LastSegmentOf | docs/js/components/Menu.js:192 | the last segment of `dir/page` is `page` |
| Menu.Listeners | docs/js/components/Menu.js:58-101 | four listeners, one click per nav link, and two hover listeners per link only when the hover background exists |
| Menu.HoverListeners | docs/js/components/Menu.js:108-126 | two listeners per link |
| Menu.Menu.constructor | docs/js/components/Menu.js:16-52 | starts closed with its attributes in agreement, all listeners attached and recorded for clean-up, and the page title set from the path |
| Menu.Menu.Open | docs/js/components/Menu.js:138-152 | open, `aria-expanded='true'`, drawer `aria-hidden='false'`, body overflow hidden, every class in agreement |
| Menu.Menu.Close | docs/js/components/Menu.js:157-171 | closed, `aria-expanded='false'`, `aria-hidden='true'`, overflow cleared; closing a closed menu changes nothing |
| Menu.Menu.ToggleMenu | docs/js/components/Menu.js:131-133 | flips the open flag, keeping every attribute in agreement |
| Menu.Menu.HandleKeydown | docs/js/components/Menu.js:70-74 | Escape closes an open menu; any other key, or a closed menu, changes nothing |
| Menu.Menu.ClickLink | docs/js/components/Menu.js:85-96 | a link click closes the menu, then navigates exactly when `href` is non-empty and not `#` |
| Menu.Menu.Destroy | docs/js/components/Menu.js:208-214 | every recorded listener is detached, the clean-up list emptied and the menu left closed |
| Carousel.SlideMoves | docs/js/components/Carousel.js:197-214 | both moves stay on an item; looping wraps like the lightbox's modular arithmetic, non-looping clamps at the ends; away from the ends each move undoes the other |
| Carousel.Carousel.constructor | docs/js/components/Carousel.js:19-36 | starts at item 0 and playing; with no items nothing else changes; otherwise exactly item 0 is active and visible and autoplay runs exactly when looping |
| Carousel.Carousel.Init | docs/js/components/Carousel.js:42-49 | with zero items nothing happens; otherwise exactly item 0 is active, its indicator too, and autoplay starts when looping and playing |
| Carousel.Carousel.SetupItems | docs/js/components/Carousel.js:55-62 | item 0 active with `aria-hidden='false'`, every other item inactive with `aria-hidden='true'` |
| Carousel.Carousel.SetupIndicators | docs/js/components/Carousel.js:99-119 | one indicator per item, only the first active |
| Carousel.Carousel.UpdateIndicators | docs/js/components/Carousel.js:258-263 | exactly the current slide's indicator is active |
| Carousel.Carousel.GoTo | docs/js/components/Carousel.js:174-192 | going to the current slide is a no-op; otherwise exactly the new item is active and visible, its indicator too, no other item changes, and the number of indicators stays |
| Carousel.Carousel.Next | docs/js/components/Carousel.js:197-203 | one on; from the last item back to 0 when looping, else stay; the number of indicators stays |
| Carousel.Carousel.Previous | docs/js/components/Carousel.js:208-214 | one back; from item 0 to the last when looping, else stay; the number of indicators stays |
| Carousel.Carousel.StopAutoplay | docs/js/components/Carousel.js:231-236 | the timer is cleared |
| Carousel.Carousel.StartAutoplay | docs/js/components/Carousel.js:219-226 | a timer runs afterwards exactly when looping and playing; otherwise nothing changes |
| Carousel.Carousel.Pause | docs/js/components/Carousel.js:241-244 | not playing and no timer |
| Carousel.Carousel.Play | docs/js/components/Carousel.js:249-252 | playing, and a timer runs when looping |
| Carousel.Carousel.Tick | docs/js/components/Carousel.js:223-225 | an autoplay tick is `next` |
| Carousel.Carousel.HandleSwipe | docs/js/components/Carousel.js:155-168 | within 50 pixels nothing changes; beyond, a positive difference goes next and a negative one previous, and autoplay restarts |
| Carousel.Carousel.ClickIndicator | docs/js/components/Carousel.js:111-115 | jumps to that slide, keeping exactly one active item, and restarts autoplay |
| Carousel.Carousel.Destroy | docs/js/components/Carousel.js:276-278 | the timer is cleared |
| Lightbox.NextPrevInverse | docs/js/components/Lightbox.js:280-296 | next wraps from the last slide to the first and previous from the first to the last, both stay in range, and each undoes the other |
| Lightbox.ClampZoom | docs/js/components/Lightbox.js:399-402 | the pinch zoom always lies within 1 and 4, is kept unchanged inside that range and is pinned to the nearer limit outside it |
| Lightbox.SwipeActionCases | docs/js/components/Lightbox.js:443-452 | next exactly when the finger moved left by more than 50 pixels, previous exactly when it moved right by more than 50, otherwise no move |
| Lightbox.TriggerImages | docs/js/components/Lightbox.js:174-183 | the parsed `data-images` list when it is present, non-empty and valid JSON; otherwise the single `data-img` |
| Lightbox.InquiryMessage | docs/js/components/Lightbox.js:508-511 | the message starts by naming the shown title, or "this artwork" when the title is empty |
| Lightbox.InquiryEnglishSize | docs/js/components/Lightbox.js:510-511 | with the English "Size:" label the stored message carries the bare size, without the prefix |
| Lightbox.Lightbox.constructor | docs/js/components/Lightbox.js:56-91 | the viewer starts closed and hidden, with no slides, no zoom and no touch history |
| Lightbox.Lightbox.UpdateSlider | docs/js/components/Lightbox.js:302-339 | with no slides nothing changes; otherwise the current slide is shown, the arrows and indicator appear exactly with two or more slides, and the indicator reads "i / n" |
| Lightbox.Lightbox.SetContent | docs/js/components/Lightbox.js:204-238 | title and description default to empty, size and materials carry their translated labels, a missing price shows "Price on Request", and the sold notice hides exactly for `available === 'true'` |
| Lightbox.Lightbox.Open | docs/js/components/Lightbox.js:243-248 | open, not hidden, and the slider updated: the slide shown, the arrows and indicator exactly with two or more slides, and the indicator reading "i / n" |
| Lightbox.Lightbox.OpenFromTrigger | docs/js/components/Lightbox.js:170-197 | loads the trigger's slides, starts at slide 0, fills the dialog as `setContent` does (labels, the price fallback, the sold notice) and opens it with the slide shown, the arrows and indicator exactly with two or more slides, and the indicator reading "i / n" |
| Lightbox.Lightbox.ResetZoom | docs/js/components/Lightbox.js:494-502 | scale 1 with no translation |
| Lightbox.Lightbox.Close | docs/js/components/Lightbox.js:260-268 | closed and hidden, no slides, index 0 and zoom reset |
| Lightbox.Lightbox.ShowNext | docs/js/components/Lightbox.js:280-285 | with slides, moves to the next one (wrapping) and updates the slider: the slide shown, the arrows and indicator exactly with two or more slides, and the indicator reading "i / n"; with none nothing changes |
| Lightbox.Lightbox.ShowPrevious | docs/js/components/Lightbox.js:290-296 | with slides, moves to the previous one (wrapping) and updates the slider: the slide shown, the arrows and indicator exactly with two or more slides, and the indicator reading "i / n"; with none nothing changes |
| Lightbox.Lightbox.HandleKeyboard | docs/js/components/Lightbox.js:351-365 | ignored while closed; Escape closes, ArrowLeft and ArrowRight move and update the slider (with no slides they change nothing), and any other key changes nothing |
| Lightbox.Lightbox.HandleSwipe | docs/js/components/Lightbox.js:443-452 | moves as the swipe decision says and updates the slider, and changes nothing for a short swipe |
| Lightbox.Lightbox.TouchStart | docs/js/components/Lightbox.js:371-381 | two fingers save the scale and restart the pinch; one finger records where the swipe starts; any other count changes nothing |
| Lightbox.Lightbox.TouchMove | docs/js/components/Lightbox.js:387-412 | a pinch's first move records the distance and later moves scale by the distance ratio within the zoom limits; one finger pans only a zoomed image |
| Lightbox.Lightbox.EndGesture | docs/js/components/Lightbox.js:421-430 | the pinch ends and the pan is saved; a scale below 1.1 resets the zoom |
| Lightbox.Lightbox.TouchEnd | docs/js/components/Lightbox.js:418-437 | without a touch list nothing changes; when the last finger lifts the gesture ends; a lifted finger swipes, updating the slider, only at scale 1, and otherwise the slider is untouched |
| Lightbox.Lightbox.DoubleTap | docs/js/components/Lightbox.js:458-477 | a second tap within 300 ms zooms an unzoomed image to 2 and resets a zoomed one; the tap time is always recorded |
| Lightbox.Lightbox.HandleInquiry | docs/js/components/Lightbox.js:508-521 | stores the inquiry message under `inquiryMessage` exactly when storage is usable and has room for it, and goes to the contact page either way |
| LegacyMain.OpenedImages | docs/js/main.js:202-203 | a missing or empty `data-images` loads the single `data-img`; otherwise the parsed list, and nothing when it is not valid JSON |
| LegacyMain.OpenedImagesAgreeWithComponent | docs/js/main.js:202-203 | the script and the component viewer load the same slides except on a malformed list, where exactly this script gives up |
| LegacyMain.LabelLine | docs/js/main.js:210-211 | a missing size or materials attribute prints as "undefined" after the label |
| LegacyMain.SwipeMovesOf | docs/js/main.js:376-386 | the first test holds exactly for a leftward swipe beyond 50 pixels and the second exactly for a rightward one |
| LegacyMain.SwipeMovesAgree | docs/js/main.js:376-386 | the two tests never both hold and make the same decision as the component viewer's swipe |
| LegacyMain.InquiryFromLegacySize | docs/js/main.js:464-468 | the legacy inquiry carries the same size as the component's, and the word "undefined" when the size is missing |
| LegacyMain.LegacyLightbox.constructor | docs/js/main.js:139-152 | no slides, hidden, no zoom, no touches, no announcements |
| LegacyMain.LegacyLightbox.UpdateSlider | docs/js/main.js:154-180 | with no slides nothing changes; otherwise the current slide is shown with the title as alt text, the arrows and indicator appear exactly with two or more slides, and one announcement "Image i of n: title" is added |
| LegacyMain.LegacyLightbox.ShowNext | docs/js/main.js:182-187 | with slides, the next one wrapping, with the slide shown with the title as alt text, the arrows and indicator exactly with two or more slides, and one announcement added; with none nothing changes |
| LegacyMain.LegacyLightbox.ShowPrev | docs/js/main.js:189-194 | with slides, the previous one wrapping, with the slide shown with the title as alt text, the arrows and indicator exactly with two or more slides, and one announcement added; with none nothing changes |
| LegacyMain.LegacyLightbox.FillDialog | docs/js/main.js:206-212 | title and description from their attributes, size and materials behind their labels |
| LegacyMain.LegacyLightbox.ShowItem | docs/js/main.js:204-216 | the given slides from index 0, the dialog filled and shown on the first slide, and the slider as `updateSlider` leaves it: navigation and indicator for several slides and the slide announced |
| LegacyMain.LegacyLightbox.LoadItem | docs/js/main.js:202-211 | the given slides from index 0 and the dialog text filled, the viewer state kept consistent |
| LegacyMain.LegacyLightbox.Reveal | docs/js/main.js:214-215 | the dialog is displayed and no longer hidden from assistive technology |
| LegacyMain.LegacyLightbox.OpenItem | docs/js/main.js:196-226 | a malformed list changes nothing; otherwise the slides load at index 0, the dialog opens on the first, and the slider shows it as `updateSlider` does |
| LegacyMain.LegacyLightbox.ResetZoom | docs/js/main.js:293-304 | scale 1 with no translation |
| LegacyMain.LegacyLightbox.Close | docs/js/main.js:228-243 | hidden, no slides, index 0, zoom reset |
| LegacyMain.LegacyLightbox.KeyDown | docs/js/main.js:313-321 | only while shown: Escape closes, the arrows move with the slide shown with the title as alt text, the arrows and indicator exactly with two or more slides, and one announcement added (nothing with no slides), other keys change nothing |
| LegacyMain.LegacyLightbox.HandleSwipe | docs/js/main.js:376-386 | the slide moves at most once, as the swipe decision says, and a move updates the slider: the slide shown with the title as alt text, the arrows and indicator exactly with two or more slides, and one announcement added |
| LegacyMain.LegacyLightbox.TouchStart | docs/js/main.js:324-331 | two fingers save the scale without clearing the pinch distance; one finger records the swipe start |
| LegacyMain.LegacyLightbox.TouchMove | docs/js/main.js:333-354 | a pinch's first move records the distance, later ones scale by the ratio within 1 and 4; one finger pans only a zoomed image |
| LegacyMain.LegacyLightbox.TouchEnd | docs/js/main.js:356-374 | the last finger ends the pinch, keeps the pan and resets a zoom below 1.1; a lift swipes, updating the slider, only at scale 1, and otherwise the slider is untouched |
| LegacyMain.LegacyLightbox.BackdropSwipe | docs/js/main.js:436-447 | a swipe on the backdrop records both positions and moves whatever the zoom, updating the slider; a short swipe leaves the slider untouched |
| LegacyMain.LegacyLightbox.DoubleTap | docs/js/main.js:389-409 | a second tap within 300 ms zooms an unzoomed image to 2 and resets a zoomed one; the tap time is always recorded |
| LegacyMain.LegacyLightbox.Inquire | docs/js/main.js:461-475 | stores the inquiry message and goes to the contact page; when storage cannot be used or has no room the write throws, nothing is stored and there is no navigation |
| LegacyMain.LegacyMobileMenu.constructor | docs/js/main.js:17-27 | closed, with the attributes in step, and the header title taken from the page name |
| LegacyMain.LegacyMobileMenu.Toggle | docs/js/main.js:29-54 | the three classes flip, the attributes, scroll lock and body class follow the new drawer state, on open focus goes to the first link when the drawer has one and otherwise stays where it was, on close to the toggle |
| LegacyMain.LegacyMobileMenu.Close | docs/js/main.js:56-70 | everything closed and in step, focus on the toggle |
| LegacyMain.LegacyMobileMenu.KeyDown | docs/js/main.js:76-80 | Escape closes an open drawer; any other case changes nothing |
| LegacyMain.InitialTheme | docs/js/main.js:628-634 | a non-empty stored value is applied as it is, whatever it says; otherwise the system preference |
| LegacyMain.Flipped | docs/js/main.js:649 | dark becomes light and everything else becomes dark |
| LegacyMain.FlipTwice | docs/js/main.js:649 | two clicks return to either theme, and a foreign value goes to dark |
| LegacyMain.LegacyThemeToggle.constructor | docs/js/main.js:628-652 | with usable storage applies the initial theme, watches the system exactly when nothing usable is stored and `matchMedia` exists, and attaches the click listener; with unusable storage the read throws, the attribute stays as the document had it and nothing is attached |
| LegacyMain.LegacyThemeToggle.Click | docs/js/main.js:648-652 | without the listener nothing happens; with it the attribute flips, and is stored exactly when storage is usable and has room for it |
| LegacyMain.LegacyThemeToggle.SystemChanged | docs/js/main.js:641-644 | the attribute follows the system preference |
| LegacyMain.ClickIsRestored | docs/js/main.js:633-651 | the theme a click stores is the one the next page load applies |
| FormValidator.Message | docs/js/components/FormValidator.js:134 | the specific message when it is present and non-empty, else the general one, and empty text when both are missing |
| FormValidator.CheckOrder | docs/js/components/FormValidator.js:125-154 | a field passes exactly when none of the three checks fails; required is tried first, then the pattern (never on an empty value), then the custom check, and the first failure decides the message |
| FormValidator.MatchesEmailIsPattern | docs/js/config.js:115 | the character scan accepts exactly the strings of the form local `@` domain `.` last, each part non-empty and without white space or `@` |
| FormValidator.MatchesEmailShape | docs/js/config.js:115 | every string the scan accepts has the pattern's shape |
| FormValidator.ShapeMatchesEmail | docs/js/config.js:115 | every string of the pattern's shape is accepted by the scan |
| FormValidator.DefaultEmailRule | docs/js/components/FormValidator.js:37-43 | a blank e-mail is reported missing, one not of the pattern's shape invalid, and any other accepted |
| FormValidator.DefaultTextRules | docs/js/components/FormValidator.js:33-48 | a blank name or message is rejected with its own message, anything else accepted |
| FormValidator.Registered | docs/js/components/FormValidator.js:66-75 | a rule is registered exactly when its input and its error element both exist |
| FormValidator.RegisteredDistinct | docs/js/components/FormValidator.js:66-75 | no field is registered twice |
| FormValidator.FormValidator.constructor | docs/js/components/FormValidator.js:16-24 | the registered fields are those of `cacheFields`, with the page's values and error texts |
| FormValidator.FormValidator.CacheFields | docs/js/components/FormValidator.js:66-75 | the fields registered in rule order are exactly the rules whose input and error element exist, each once |
| FormValidator.FormValidator.ShowFieldError | docs/js/components/FormValidator.js:162-168 | a registered field gets the message and `aria-invalid='true'`; any other name changes nothing |
| FormValidator.FormValidator.ClearFieldError | docs/js/components/FormValidator.js:175-181 | a registered field gets empty error text and `aria-invalid='false'`; any other name changes nothing |
| FormValidator.FormValidator.ValidateField | docs/js/components/FormValidator.js:125-154 | an unregistered field is valid and untouched; a registered one passes exactly when its rule accepts its trimmed value, and shows the verdict |
| FormValidator.FormValidator.ValidateNth | docs/js/components/FormValidator.js:111-115 | one round of the loop: the next field shows its verdict and the earlier ones keep theirs |
| FormValidator.FormValidator.PassUpToMeans | docs/js/components/FormValidator.js:108-118 | the running flag is true exactly when every field so far passes |
| FormValidator.FormValidator.ValidateAll | docs/js/components/FormValidator.js:108-118 | every field is validated with no early stop and shows its verdict; the form is valid exactly when all pass |
| FormValidator.FormValidator.HandleInput | docs/js/components/FormValidator.js:96-100 | the new value is kept; a non-blank one clears the error and a blank one leaves it |
| FormValidator.FormValidator.Reset | docs/js/components/FormValidator.js:197-201 | every registered field loses its error; other error elements keep their text |
| FormValidator.FormValidator.GetData | docs/js/components/FormValidator.js:207-213 | one entry per registered field, holding its trimmed value |
| ServiceWorker.Ok | docs/sw.js:80 | a response is ok exactly when its status is in 200-299 |
| ServiceWorker.AssetUrl | docs/sw.js:2-17 | a `./` asset resolves to the worker's directory followed by the rest of the path, on the worker's origin and with no query |
| ServiceWorker.Classify | docs/sw.js:48-70 | only same-origin GET requests are routed; images go stale-while-revalidate, `.json` paths network-first through the API cache, and static paths cache-first through the main cache |
| ServiceWorker.ClassifyOrder | docs/sw.js:56-69 | the first matching rule wins, and a same-origin GET is left alone exactly when it is not an image, not `.json` and not a static path |
| ServiceWorker.MatchAllFirst | docs/sw.js:73 | the global lookup finds a response exactly when some cache holds the URL, and it is the one in the first such cache |
| ServiceWorker.OpenParts | docs/sw.js:81 | opening a cache adds it, empty, when it is missing and leaves every cache's contents as before |
| ServiceWorker.PutParts | docs/sw.js:81-82 | after open and put the named cache holds the response for the URL, except that a partial (206) response is refused and the opened cache stays as it was; every other cache is unchanged |
| ServiceWorker.OpenKeepsConsistent | docs/sw.js:81-82 | opening and putting keep the creation order listing each cache exactly once |
| ServiceWorker.PutThenMatch | docs/sw.js:73-82 | a response put into a cache is found by the next lookup, and is exactly that response when no cache held the URL before; a partial (206) response is not stored and every lookup answers as before |
| ServiceWorker.MatchAllOpen | docs/sw.js:73-81 | opening a new, empty cache changes no lookup |
| ServiceWorker.Survivors | docs/sw.js:35-41 | after activation exactly the caches that are not stale remain |
| ServiceWorker.DistinctCons | docs/sw.js:33 | a name list with a new head and no repeats stays free of repeats |
| ServiceWorker.Without | docs/sw.js:40 | deleting a cache removes exactly that name from the creation order |
| ServiceWorker.WithoutAbsent | docs/sw.js:40 | deleting a name that is not there leaves the order unchanged |
| ServiceWorker.WithoutKeepsDistinct | docs/sw.js:40 | deleting keeps the creation order free of repeats |
| ServiceWorker.WithoutMiddle | docs/sw.js:40 | deleting a name that occurs once joins what was before and after it |
| ServiceWorker.ActivateStep | docs/sw.js:35-41 | after visiting each name the creation order is the survivors so far followed by the names still to visit |
| ServiceWorker.CacheStorage.constructor | docs/sw.js:22-24 | no caches |
| ServiceWorker.CacheStorage.Open | docs/sw.js:24 | `caches.open`: adds a missing cache last and keeps every existing one |
| ServiceWorker.CacheStorage.Put | docs/sw.js:82 | `cache.put`: the cache now answers the URL with the response and nothing else changes; a partial (206) response is refused and nothing changes |
| ServiceWorker.CacheStorage.Delete | docs/sw.js:40 | `caches.delete`: reports whether the cache existed, removes it and its place in the order |
| ServiceWorker.CacheFirstWithNetworkFallback | docs/sw.js:72-100 | any cached copy wins untouched; otherwise the network answer is returned and, when ok, the cache opened and the answer put (a 206 one refused); with the network down a page gets the cached offline page and everything else the 503 text |
| ServiceWorker.OfflineFallback | docs/sw.js:85-98 | a page request gets the cached offline page when there is one; otherwise the 503 text response |
| ServiceWorker.StaleWhileRevalidate | docs/sw.js:102-114 | the named cache's copy wins, else the network answer; an ok network answer is put either way, a 206 one refused; with neither the answer rejects |
| ServiceWorker.NetworkFirstWithCache | docs/sw.js:116-137 | the network answer wins and, when ok, is put (a 206 one refused); with the network down any cached copy wins, else the 503 JSON error |
| ServiceWorker.HandleFetch | docs/sw.js:48-70 | an unrouted request is not intercepted and changes nothing; a routed one is answered, and the cache storage changed, exactly as its strategy's predicate (`CacheFirstServed`, `StaleServed`, `NetworkFirstServed`) says for that route's cache |
| ServiceWorker.CacheFirstMissThenHit | docs/sw.js:72-84 | after a miss served by the network, the next cache-first request for the URL is answered from the cache, unless the answer was partial (206) and so not stored |
| ServiceWorker.AssetUrls | docs/sw.js:2-17 | one URL per static asset, in order |
| ServiceWorker.PutAllContents | docs/sw.js:25 | after `addAll` the cache holds its old entries and every asset, each asset with its fetched response |
| ServiceWorker.AddAll | docs/sw.js:25 | all or nothing: the assets are stored exactly when every fetch is ok and none is partial (206), and otherwise the cache is unchanged |
| ServiceWorker.Install | docs/sw.js:22-29 | opens `branchstone-v1` and stores every static asset exactly when every fetch is ok and none is partial (206), and none otherwise |
| ServiceWorker.PutNth | docs/sw.js:25 | one put of `addAll`: the next asset is stored |
| ServiceWorker.InstalledAssetsAreHits | docs/sw.js:22-26 | every static asset stored by the install is found by a later lookup |
| ServiceWorker.Activate | docs/sw.js:31-46 | exactly the stale caches are deleted, the others keep their contents and their order |
| ServiceWorker.DeleteIfStale | docs/sw.js:36-41 | one round of activation: a stale cache is deleted, any other kept |
| ServiceWorker.ActivateResult | docs/sw.js:31-44 | the caches left are exactly the non-stale ones with their old contents |
| ServiceWorker.ActivateKeeps | docs/sw.js:33-42 | after activation the only `branchstone-` caches left are this version's three; those three and every cache without the prefix survive when present |
| ConvertToWebp.WebpPath | scripts/convert-to-webp.js:34 | a `.jpg` or `.jpeg` ending, whatever its case, becomes `.webp`; any other path is kept |
| ConvertToWebp.CandidatesQualify | scripts/convert-to-webp.js:21-43 | every image found is a JPEG by name, is not a generated variant and has no WebP next to it |
| ConvertToWebp.FindJpegImages | scripts/convert-to-webp.js:18-47 | the recursive scan collects exactly the candidates, in visiting order |
| ConvertToWebp.TallyCountsSuccesses | scripts/convert-to-webp.js:96-102 | the count never exceeds the images, equals them exactly when every conversion succeeds, and nothing is totalled when all fail |
| ConvertToWebp.BatchedTally | scripts/convert-to-webp.js:92-103 | totalling batch after batch of five gives the totals of the whole list |
| ConvertToWebp.Run | scripts/convert-to-webp.js:76-103 | nothing is converted exactly when no candidate exists; otherwise every candidate is attempted once, in order, and the totals are those of the successful conversions |
| ConvertToWebp.ConvertBatch | scripts/convert-to-webp.js:93-102 | the totals after one batch are those of everything attempted before it followed by the batch, in order |
| FsTree.LastIndexOf | scripts/optimize-images.js:81-82 | the index of the last occurrence of the character, and -1 exactly when it does not occur |
| FsTree.JoinSplits | scripts/optimize-images.js:49 | `path.dirname` and `path.basename` of a joined path give back the directory and the name |
| FsTree.WalkAppend | scripts/optimize-images.js:45-57 | walking two listings after one another collects the files of each in turn |
| FsTree.WalkSelects | scripts/optimize-images.js:45-57 | every collected path is a file the selection accepts, under its own name |
| FsTree.WalkEntrySelects | scripts/optimize-images.js:45-57 | the same for one entry: a file, or a directory walked recursively |
| FsTree.Scanner.constructor | scripts/optimize-images.js:43 | starts with nothing collected |
| FsTree.Scanner.Scan | scripts/optimize-images.js:45-57 | the recursive traversal appends exactly the walk's files, in visiting order |
| ImageNames.StripExtension | scripts/optimize-images.js:73-75 | the first listed extension the name ends with, ignoring case, is removed, and a name with none of them is kept |
| ImageNames.VariantNameIsTagged | scripts/optimize-images.js:152-163 | every name the scripts generate carries the tag, so a rerun skips it |
| Batching.Batches | scripts/optimize-images.js:211-212 | every batch is non-empty and holds at most the batch size |
| Batching.BatchesCover | scripts/optimize-images.js:211-212 | the batches cover the list exactly once and in order |
| Batching.BatchAt | scripts/optimize-images.js:211-212 | batch `b` is the slice from `b` times the size, as the loop variable steps |
| ArtworkSrcsets.EntriesForWidths | scripts/update-srcsets.js:55-71 | one entry per configured width whose variant exists, 400w before 800w, and none exactly when neither file exists |
| ArtworkSrcsets.JoinedEntries | scripts/update-srcsets.js:62-80 | with both variants present the srcset reads "dir/base-400w.ext 400w, dir/base-800w.ext 800w" |
| ArtworkSrcsets.ThumbFile | scripts/update-srcsets.js:77 | the thumb named for an image is its 400w WebP, `<base>-400w.webp` |
| ArtworkSrcsets.ExistingVariants | scripts/update-srcsets.js:55-71 | the width loop collects exactly the existing entries of each format, and reports variants exactly when it found any |
| ArtworkSrcsets.Assign | scripts/update-srcsets.js:106-107 | setting a property changes that property and no other |
| ArtworkSrcsets.AssignIndex | scripts/update-srcsets.js:119-122 | storing at an index of an array grows it to reach the index, fills the gap with `null` and keeps the other slots; an object gets the index as a key; a primitive throws |
| ArtworkSrcsets.MainStepRules | scripts/update-srcsets.js:103-112 | the step throws exactly for a `null` artwork or a truthy non-string image; a found image sets `srcset`, and `thumb` when there is one, and nothing else; otherwise the artwork is unchanged |
| ArtworkSrcsets.ImagesUpTo | scripts/update-srcsets.js:116-126 | after any number of turns that did not throw the artwork is still an object |
| ArtworkSrcsets.Found | scripts/update-srcsets.js:118-124 | the images with a srcset never outnumber the images visited |
| ArtworkSrcsets.ImagesCorrespond | scripts/update-srcsets.js:115-126 | the loop throws exactly on a non-string image path; otherwise slot `j` of `imagesSrcset` holds image `j`'s srcset or `null`, the array ends at the last image that has one, the count is the number of such images and no other property changes |
| ArtworkSrcsets.ImagesRerun | scripts/update-srcsets.js:115-126 | on a second run over an existing `imagesSrcset` array the loop throws exactly on a non-string path; each image with a srcset overwrites its slot, every other slot keeps its old value (a stale srcset survives), the array grows, padded with `null`, only up to the last image with a srcset, and no other property changes |
| ArtworkSrcsets.UpdateImages | scripts/update-srcsets.js:116-126 | the `images` loop computes the specified state, stopping at the first error |
| ArtworkSrcsets.FailureStays | scripts/update-srcsets.js:116-126 | once a turn throws, the loop's result is that error |
| ArtworkSrcsets.ProcessArtwork | scripts/update-srcsets.js:99-134 | one artwork: the main image, then the `images` array when it is an array, then (when the run logs) the gallery count, which throws on an updated artwork whose `imagesSrcset` is truthy but not an array |
| ArtworkSrcsets.LoggedArtwork | scripts/update-srcsets.js:113-129 | with the gallery log an artwork fails exactly as without it, or, when its rewrite succeeds, fails exactly when it has an `images` array, was updated and holds a truthy non-array `imagesSrcset`, with `filter is not a function`; otherwise the result is the same |
| ArtworkSrcsets.ForeignSrcsetArtwork | scripts/update-srcsets.js:103-128 | a found main image, an empty `images` array and a truthy non-array `imagesSrcset` make the logged artwork fail with `filter is not a function` |
| ArtworkSrcsets.UpdateAllMeans | scripts/update-srcsets.js:99-135 | the loop fails exactly when one artwork does; otherwise every artwork is rewritten on its own, in place, and an artwork counts as updated at most once, and only when its main image or one of its images was |
| ArtworkSrcsets.UpdateAllFails | scripts/update-srcsets.js:99-135 | the loop fails exactly when one artwork does |
| ArtworkSrcsets.UpdateAllReport | scripts/update-srcsets.js:99-135 | when the loop succeeds, every artwork is rewritten on its own and counted as updated at most once, and only when its main image or one of its images was |
| ArtworkSrcsets.UpdateFailureStays | scripts/update-srcsets.js:99-135 | once an artwork throws, the rest of the loop does not run |
| ArtworkSrcsets.UpdateArtworks | scripts/update-srcsets.js:99-135 | the outer loop computes the specified report, stopping at the first error |
| ArtworkSrcsets.StringArtworksUnchanged | scripts/update-srcsets.js:94-99 | a JSON string iterates as its characters, none of which changes, so it is written back as it was |
| ArtworkSrcsets.CharsUnchanged | scripts/update-srcsets.js:99-135 | the loop leaves a list of strings untouched and counts nothing |
| ArtworkSrcsets.UpdateFileShape | scripts/update-srcsets.js:92-142 | content that is not JSON, or JSON that is neither an array nor a string, fails; a string is written back unchanged and an array keeps its length |
| UpdateSrcsets.SrcsetForMeans | scripts/update-srcsets.js:43-84 | a srcset exists exactly when one of the four variants does, a thumb exactly when one of the two WebP variants does, and the thumb always names the 400w WebP |
| UpdateSrcsets.FullSrcset | scripts/update-srcsets.js:55-83 | with all four variants each srcset lists the 400w and then the 800w file under the image's own directory |
| UpdateSrcsets.AddSrcsetToImage | scripts/update-srcsets.js:43-84 | the width loop returns the specified srcset |
| UpdateSrcsets.OutcomeCounts | scripts/update-srcsets.js:96-135 | no more artworks are updated than exist, and no more than the images that gained a srcset |
| UpdateSrcsets.UpdateArtworksJson | scripts/update-srcsets.js:89-150 | parses, rewrites every artwork and reports the specified counts, failing on content that is not JSON, not iterable or that throws, including the gallery-count log's `filter` on an updated artwork with an `images` array and a truthy non-array `imagesSrcset` |
| UpdateSrcsets.GalleryLogFails | scripts/update-srcsets.js:127-148 | an artwork whose rewrite makes the gallery log throw stops the whole run with an error |
| UpdateSrcsets.ForeignSrcsetStopsTheRun | scripts/update-srcsets.js:103-148 | a single artwork with a found main image, an empty `images` array and a truthy non-array `imagesSrcset` fails the run with `filter is not a function` |
| OptimizeImages.FileNameSlashFree | scripts/optimize-images.js:82 | the base name of a path has no separator |
| OptimizeImages.VariantFileSlashFree | scripts/optimize-images.js:86-87 | a variant name built from a base name has no separator |
| OptimizeImages.ListedVariantExists | scripts/optimize-images.js:80-92 | a variant the directory listing names exists at the path joined from that directory |
| OptimizeImages.SrcsetForMeans | scripts/optimize-images.js:286-326 | a srcset is produced exactly when both WebP variants are listed; its thumb is the 400w WebP, which exists, and its WebP srcset lists 400w then 800w |
| OptimizeImages.AddSrcsetToImage | scripts/optimize-images.js:286-326 | the width loop returns the specified srcset |
| OptimizeImages.PlanForWidths | scripts/optimize-images.js:139-172 | an unknown or zero width, or one of at least 800, gives four files; a width from 400 up to 800 only the 400w pair; a narrower one none |
| OptimizeImages.FirstFailureMeans | scripts/optimize-images.js:146-171 | the writes fail exactly when one is rejected, and the error is the first rejection |
| OptimizeImages.FirstFailurePrefix | scripts/optimize-images.js:139-172 | a rejection among the first writes is the one reported |
| OptimizeImages.PlanPrefix | scripts/optimize-images.js:139-172 | the files for the first widths begin the files for all of them |
| OptimizeImages.Sized | scripts/optimize-images.js:158-171 | one variant per file written |
| OptimizeImages.FirstFailureAppend | scripts/optimize-images.js:139-172 | the first rejection of two write runs is the first run's, else the second's |
| OptimizeImages.SizedAppend | scripts/optimize-images.js:158-171 | sizing two runs of files is sizing each in turn |
| OptimizeImages.TotalSizeAppend | scripts/optimize-images.js:159-170 | the optimized size of two runs is the sum of their sizes |
| OptimizeImages.WritePair | scripts/optimize-images.js:151-171 | the WebP and then the JPEG of one width are written, each followed by its size, stopping at a rejection |
| OptimizeImages.WriteAll | scripts/optimize-images.js:139-172 | the widths loop throws the first rejection, or returns every planned file with its size and their total |
| OptimizeImages.PlanStep | scripts/optimize-images.js:139-172 | one more width adds its WebP and JPEG pair unless the original is known to be narrower, and nothing otherwise |
| OptimizeImages.PlanFailureStays | scripts/optimize-images.js:139-172 | a rejection while writing the first widths is the one reported |
| OptimizeImages.WriteVariants | scripts/optimize-images.js:139-172 | the configured widths give the specified outcome and its total size |
| OptimizeImages.ProcessAllStep | scripts/optimize-images.js:211-227 | processing one more image extends the run by that image |
| OptimizeImages.ProcessAllAccounts | scripts/optimize-images.js:120-227 | every image is either processed or has exactly one error recorded under its path, every original size is counted once, and the skip count does not move |
| OptimizeImages.ToProcess | scripts/optimize-images.js:193-206 | the filter never keeps more images than it was given |
| OptimizeImages.ToProcessMeans | scripts/optimize-images.js:193-206 | an image is kept exactly when no pattern excludes it and its WebP variants are not both listed |
| OptimizeImages.Stats.constructor | scripts/optimize-images.js:31-37 | all statistics start at zero with no errors |
| OptimizeImages.Stats.GenerateVariants | scripts/optimize-images.js:120-184 | the original's size is always counted; a completed image adds its variants' sizes and counts as processed, and a rejection leaves the rest as it was |
| OptimizeImages.Stats.ProcessImage | scripts/optimize-images.js:219-226 | a rejection is caught and recorded under the image's path |
| OptimizeImages.Stats.FilterImages | scripts/optimize-images.js:193-206 | keeps exactly the images that are not excluded, in order, and counts one skip per image left out |
| OptimizeImages.Stats.ProcessImages | scripts/optimize-images.js:189-229 | the filter, then every kept image in batches of five, in order |
| OptimizeImages.Stats.ProcessBatch | scripts/optimize-images.js:212-227 | one batch extends the run by its images |
| OptimizeImages.Stats.UpdateArtworksJson | scripts/optimize-images.js:234-281 | the rewritten file and the count of main images updated, or the failure recorded under the file's path |
| OptimizeImages.ArtworksOutcomeCounts | scripts/optimize-images.js:241-251 | no more main images are counted than there are artworks |
| OptimizeImages.MainImageGetsThumb | scripts/optimize-images.js:245-251 | an updated main image always gets the 400w WebP as its thumb |
| OptimizeImages.Run | scripts/optimize-images.js:371-400 | the final statistics are those of collecting, filtering and processing every JPEG and then updating `artworks.json` against the disk as processing left it |
| Pixels.Recoloured | scripts/perfect-circle.js:46-52 | the buffer keeps its length, and each byte is the recoloured channel of its pixel when that pixel is a whole, opaque one, else the byte as it was |
| Pixels.RecolouredKeeps | scripts/perfect-circle.js:46-52 | alpha bytes, transparent pixels and a trailing partial pixel are left alone, so exactly the same pixels stay opaque |
| Pixels.RecolouredColour | scripts/perfect-circle.js:47-51 | an opaque pixel ends up with the mapped colour of its old colour |
| Pixels.RecolourTwice | scripts/theme-matching-logo.js:28-53 | recolouring twice is recolouring once with the composed colour map |
| Pixels.RecolourTwiceAt | scripts/theme-matching-logo.js:28-53 | each single byte agrees after recolouring twice and after recolouring once with the composed map |
| Pixels.RecolourIdentity | scripts/perfect-circle.js:46-52 | a colour map that changes nothing leaves the buffer as it was |
| Pixels.RecolourOpaque | scripts/perfect-circle.js:46-52 | the scan in steps of four rewrites the buffer in place into its recoloured copy |
| PerfectCircle.Invert | scripts/perfect-circle.js:48-50 | each channel of the inverted colour and the original add up to 255 |
| PerfectCircle.DarkLogoInvolution | scripts/perfect-circle.js:38-52 | inverting the dark logo gives back the original buffer |
| PerfectCircle.InvertOpaquePixels | scripts/perfect-circle.js:45-52 | the loop turns the buffer into the dark logo: every opaque pixel inverted, alpha kept |
| ThemeLogo.DarkPixel | scripts/theme-matching-logo.js:36-47 | the inverted colour, or the dark background #2A2622 when that inversion has every channel below 50 |
| ThemeLogo.LightPixel | scripts/theme-matching-logo.js:78-83 | a colour with every channel above 200 becomes the light background #F8F8F8, any other stays |
| ThemeLogo.DarkThemedPixel | scripts/theme-matching-logo.js:28-53 | an opaque pixel of the dark copy stays opaque and is the dark background exactly when the original had every channel above 205, else the original's inversion |
| ThemeLogo.DarkThemedAgreesWithInversion | scripts/theme-matching-logo.js:36-51 | wherever no blend happens the dark copy matches the circle script's inverted logo byte for byte |
| ThemeLogo.LightThemedIdempotent | scripts/theme-matching-logo.js:70-85 | the light background is itself near white, so running the light loop on its own output changes nothing |
| ThemeLogo.LightThemedPixel | scripts/theme-matching-logo.js:73-84 | no opaque pixel of the light copy is near white unless it is the background, and a pixel that was not near white keeps its colour |
| ThemeLogo.DarkThemeLogo | scripts/theme-matching-logo.js:26-53 | the loop over a copy of the decoded buffer computes the dark-themed buffer |
| ThemeLogo.LightThemeLogo | scripts/theme-matching-logo.js:68-85 | the loop over a second copy computes the light-themed buffer |

## Left out

- Timers are not modelled as time. The carousel autoplay interval is a flag saying whether a timer is set. The filter's 300 ms transition is a queue of pending transitions that fire in order. The `cache.put` calls of all three fetch strategies are not awaited (`docs/sw.js:82`, `108`, `121`); the model applies each write at once, before the answer.
- `Promise.all` is modelled in order. The build scripts run each batch of five concurrently; the model processes the images one after another in list order. Only the order of the recorded errors depends on this.
- DOM and accessibility side effects are left out: element creation, focus moves, focus traps (including `focusFirstInvalid`) and screen-reader live regions. Only the state fields and the attribute and class values named in the contracts are kept.
- Floating-point presentation is left out: pinch distances, parallax, magnetic hover, `formatBytes` and the savings percentages. Touch positions and zoom are `real` values. The double-tap pan offsets are parameters, and the inline styles `applyZoom` writes are not modelled.
- Console output is not modelled, and neither are the statistics report of the build scripts or the `process.exit` on failure.
- `JSON.stringify` formatting and key order are not modelled. A written file is the JSON value that would be stringified.
- Path normalisation of `path.join`/`path.resolve` is not modelled. Paths are joined with `/`, relative to the project root. The image optimiser's `shouldSkip` (`scripts/optimize-images.js:66-68`) therefore sees the relative path, where the script tests the absolute one; a skip pattern that matches a directory above the project root would skip every image in the script and none in the model.
- A `readdir` failure during the recursive image walks is not modelled. The directory tree is a value.
- In the image optimiser, `fs.access` is answered from the directory listings. The listing before processing decides the filter; the listing after processing decides the `artworks.json` update.
- GalleryFilter: of the `URLSearchParams` decoding of the fragment (`docs/js/components/GalleryFilter.js:255`) the model keeps the dropped leading `?` and `+` read as a space; percent escapes such as `%20` are not decoded.
- I18n.Resolve: the key walk finds an object's own properties and an array's elements and `length`, but not properties inherited from `Object.prototype` or `Array.prototype` (`constructor`, `map` and the like).
- The `pageTitles` lookup in `docs/js/main.js` and `Menu.js` treats only the listed pages as known. Inherited `Object.prototype` keys such as `constructor` are not modelled.
- The gallery's `render` takes the card builder as a parameter, so its proof does not unfold the picture rules. `Gallery.BuilderFor` is the builder the source uses: `createGalleryItem` or `createFeaturedItem`.
- Some parts of `docs/js/main.js` are UI glue with no state worth stating and are left out: the featured and gallery fetch blocks, the scroll animations, parallax, magnetic hover, menu hover effects and the language toggle.
- The app scroll hint (`docs/js/app.js:362-416`) is presentation only. It also reads configuration keys that do not exist.
- `ScrollToTop.js`, `Animations.js`, `dom.js` (including `debounce` and `throttle`; only the way `createElement` appends its children is modelled, by `Gallery.ChildText`), `public/js/main.js` and `tailwind.config.js` are not part of this model.
- `docs/js/config.js` is not modelled as a file. The constants the model uses are copied into the modules: the swipe threshold 50, zoom 1 to 4, languages `en`/`ua`, featured count 6, the skeleton count and the breakpoints.
- ServiceWorker: `self.skipWaiting()` and `self.clients.claim()` (`docs/sw.js:28`, `45`) only change which worker controls open pages and are not modelled.
- I18n.Translate, I18n.Outcome: an element's kind is fixed. A button that holds an `svg` is a block in the model, yet its first `textContent` write removes the `svg`, after which the source treats it as a plain button; a second translation is therefore modelled on the wrong branch.
- JSON numbers are integers (`Json.JNum` holds an `int`). Fractions, `String(1.5)` and the truthiness of numbers such as 0.5 are not modelled.
- App.App.constructor: the page-specific part of `init` runs after its first `await` and is stated by `App.PageInits`, not by the constructor.
- HasImages: a JSON `images` value is judged by its kind; an object never counts as having images, where the browser would follow its `length` property.
- WebStorage.Store.GetItem, WebStorage.Store.SetItem, WebStorage.Store.RemoveItem, WebStorage.Store.Clear: the availability probe's own `setItem('__storage_test__', '__storage_test__')` is taken to succeed whenever storage is enabled; on a store too full for that write the source reports storage as unavailable and returns the fallback, which the model does not capture.
- ArtworkSrcsets.ImagesRerun: only an existing `imagesSrcset` array and a falsy value are covered by lemmas; a truthy object or primitive goes through `AssignIndex` (an object gains decimal keys, a primitive throws) without a lemma stating the loop's result; in `update-srcsets` such a value then makes the gallery log throw when the artwork was updated, which `ArtworkSrcsets.LoggedArtwork` states.
- The image-library work of `perfect-circle.js` and `theme-matching-logo.js` is not modelled: decoding, the SVG clip, resizing and PNG encoding. Only the RGBA loops are.

## Findings

| source | as written | input that shows it | evidently intended | confidence | as-written member | corrected member |
|---|---|---|---|---|---|---|
| docs/js/components/GalleryFilter.js:182 | `announceFilter` counts the items whose `aria-hidden` is `"false"` right away. The visibility of the new category is only applied when the 300 ms transition fires, so the count is the previous filter's. | two items with categories `a` and `b`, both shown under `all`; filtering by `a` announces 2 items while 1 will be shown | announce the number of items the new category shows | not executed | GalleryFilter.StaleAnnouncementCount | GalleryFilter.IntendedAnnouncement |
| docs/js/app.js:141 | the home page's debounced resize callback calls `carousel.recalculate()`, which `Carousel` does not define | any window resize on the home page, once the featured carousel exists: the timer throws a TypeError and the layout keeps its original `itemsPerView` | lay the carousel out again for the new width, with the breakpoints used when it was built | not executed | App.ResizeAlwaysThrows | App.ResizeIntended |
| docs/js/components/Theme.js:75 | `watchSystemPreference` stops following the system whenever storage holds any truthy value. `getInitialTheme` (lines 40-46) accepts only `light` or `dark` and otherwise uses the system theme. | the stored value `"blue"`: the page shows the system theme but no longer follows system changes | follow the system exactly when the theme came from it, that is, when the stored value is neither `light` nor `dark` | not executed | Theme.ForeignValueStopsWatching | Theme.IntendedWatchFollowsChoice |
