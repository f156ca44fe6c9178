/** public/js/translations.js: the older translation script. It keeps the
    language and translations in module variables, reads and writes
    `localStorage` directly (no availability probe and no JSON parsing) and
    switches to any language it is given. Lookups and element updates follow
    the same rules as docs/js/i18n.js and reuse that model. */
module PublicTranslations {
  import opened Wrappers
  import opened Json
  import I18n
  import WebStorage

  const LanguageKey := "language"

  /** The language at load time: the stored text when non-empty, else "en". */
  function InitialLang(storage: map<string, string>): (lang: string)
    ensures LanguageKey in storage && storage[LanguageKey] != "" ==> lang == storage[LanguageKey]
    ensures LanguageKey !in storage || storage[LanguageKey] == "" ==> lang == "en"
  {
    if LanguageKey in storage && storage[LanguageKey] != "" then storage[LanguageKey] else "en"
  }

  /** The script's state on one page. `running` records that the script got
      past its first line: with `localStorage` blocked the `getItem` there
      throws, and nothing else of the script runs: no listener is attached
      and nothing is exported. */
  class Page {
    var translations: Json
    var currentLang: string
    var elements: seq<I18n.Element>
    var htmlLang: string
    const hasToggle: bool
    const running: bool
    var toggleText: string

    constructor (store: WebStorage.Store, elements: seq<I18n.Element>, hasToggle: bool)
      ensures running == store.available
      ensures running ==> currentLang == InitialLang(store.items)
      ensures translations == JObj(map[]) && this.elements == elements && this.hasToggle == hasToggle
    {
      translations := JObj(map[]);
      running := store.available;
      currentLang := if store.available then InitialLang(store.items) else "en";
      this.elements := elements;
      htmlLang := "";
      this.hasToggle := hasToggle;
      toggleText := "";
    }

    /** `getTranslation(key, lang)`: reading `translations[lang]` throws on a
        `null` document (`thrown`). */
    method GetTranslation(key: string, lang: string) returns (thrown: bool, r: Option<Json>)
      ensures thrown <==> translations == JNull
      ensures !thrown ==> r == I18n.Resolve(translations, key, lang) && (r.Some? ==> Truthy(r.value))
    {
      thrown, r := I18n.Get(translations, key, lang);
    }

    /** `loadTranslations`, run on `DOMContentLoaded`: when the file loads the
        page is translated (an update that throws is caught here); a failed
        fetch or parse leaves everything as it was. */
    method LoadTranslations(loaded: Option<Json>)
      modifies this`translations, this`elements, this`htmlLang, this`toggleText
      ensures !running || loaded.None? ==> unchanged(this`translations, this`elements, this`htmlLang, this`toggleText)
      ensures running && loaded.Some? ==>
                var n := I18n.StopAt(old(elements), loaded.value, currentLang);
                translations == loaded.value
                && I18n.AppliedUpTo(old(elements), elements, translations, currentLang, n)
                && htmlLang == (if n == |old(elements)| then currentLang else old(htmlLang))
                && toggleText == (if n == |old(elements)| && hasToggle then "EN | UA" else old(toggleText))
    {
      if running && loaded.Some? {
        translations := loaded.value;
        var _ := ApplyTranslations();
      }
    }

    /** `applyTranslations`: the elements in document order until an update
        throws (`ok` false); only when none does are the toggle's text (the
        same for both languages) and the document's `lang` set. */
    method ApplyTranslations() returns (ok: bool)
      modifies this`elements, this`htmlLang, this`toggleText
      ensures var n := I18n.StopAt(old(elements), translations, currentLang);
        I18n.AppliedUpTo(old(elements), elements, translations, currentLang, n)
        && (ok <==> n == |old(elements)|)
      ensures ok ==> htmlLang == currentLang && toggleText == if hasToggle then "EN | UA" else old(toggleText)
      ensures !ok ==> htmlLang == old(htmlLang) && toggleText == old(toggleText)
    {
      ghost var es := elements;
      var i := 0;
      while i < |elements|
        invariant 0 <= i <= |elements| == |es| && htmlLang == old(htmlLang) && toggleText == old(toggleText)
        invariant I18n.FirstTrueFrom(I18n.Throwing(es, translations, currentLang), 0)
                  == I18n.FirstTrueFrom(I18n.Throwing(es, translations, currentLang), i)
        invariant I18n.AppliedUpTo(es, elements, translations, currentLang, i)
      {
        var o := UpdateElement(elements[i]);
        if o.None? {
          assert I18n.Throwing(es, translations, currentLang)[i];
          return false;
        }
        elements := elements[i := o.value];
        assert !I18n.Throwing(es, translations, currentLang)[i];
        i := i + 1;
      }
      if hasToggle {
        toggleText := if currentLang == "en" then "EN | UA" else "EN | UA";
      }
      htmlLang := currentLang;
      ok := true;
    }

    /** The body of the `forEach`: one element's lookup and update. */
    method UpdateElement(e: I18n.Element) returns (o: Option<I18n.Element>)
      ensures o == I18n.ResultOf(e, translations, currentLang)
    {
      var thrown, r := GetTranslation(e.key, currentLang);
      o := if thrown then None else I18n.Outcome(e, r);
    }

    /** What `switchLanguage(lang)` leaves, from elements `es0`, document
        language `html0`, toggle text `text0` and storage `items0`: the
        language is current; the raw `setItem` stores it when storage takes
        the write (`stored`) and otherwise throws before anything is
        translated; after a stored write the page is translated again up to
        the first update that throws. */
    ghost predicate SwitchedTo(lang: string, es0: seq<I18n.Element>, html0: string, text0: string,
                               store: WebStorage.Store, items0: map<string, string>)
      reads this, store
    {
      var stored := store.available && store.fits(items0[LanguageKey := lang]);
      var n := I18n.StopAt(es0, translations, lang);
      currentLang == lang
      && store.items == (if stored then items0[LanguageKey := lang] else items0)
      && (!stored ==> elements == es0 && htmlLang == html0 && toggleText == text0)
      && (stored ==> I18n.AppliedUpTo(es0, elements, translations, lang, n)
                     && htmlLang == (if n == |es0| then lang else html0)
                     && toggleText == (if n == |es0| && hasToggle then "EN | UA" else text0))
    }

    /** `switchLanguage(lang)`: any language is accepted; `ok` is false when
        the write or the translation throws. Without the script's first line
        there is no such function and nothing changes. */
    method SwitchLanguage(lang: string, store: WebStorage.Store) returns (ok: bool)
      modifies this`currentLang, store`items, this`elements, this`htmlLang, this`toggleText
      ensures !running ==> !ok && unchanged(this) && unchanged(store)
      ensures running ==> SwitchedTo(lang, old(elements), old(htmlLang), old(toggleText), store, old(store.items))
      ensures running ==> (ok <==> store.available && store.fits(old(store.items)[LanguageKey := lang])
                                   && I18n.StopAt(old(elements), translations, lang) == |old(elements)|)
    {
      if !running {
        return false;
      }
      currentLang := lang;
      if !(store.available && store.fits(store.items[LanguageKey := lang])) {
        return false;
      }
      store.items := store.items[LanguageKey := lang];
      ok := ApplyTranslations();
    }

    /** A click on the toggle, once the listener is attached: English becomes
        Ukrainian, anything else English. */
    method ToggleClick(store: WebStorage.Store)
      modifies this`currentLang, store`items, this`elements, this`htmlLang, this`toggleText
      ensures !running || !hasToggle ==> unchanged(this) && unchanged(store)
      ensures running && hasToggle ==> currentLang == I18n.ToggleLang(JStr(old(currentLang)))
      ensures running && hasToggle ==> (old(currentLang) == "en" <==> currentLang == "ua")
      ensures running && hasToggle ==>
                SwitchedTo(currentLang, old(elements), old(htmlLang), old(toggleText), store, old(store.items))
    {
      if !running || !hasToggle {
        return;
      }
      var _ := SwitchLanguage(if currentLang == "en" then "ua" else "en", store);
    }
  }
}
