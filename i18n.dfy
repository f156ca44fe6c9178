/** docs/js/i18n.js: translations looked up by dot-separated keys in a
    JSON object keyed by language, the current language (persisted under
    `language`), the element updates of `applyTranslations` and the language
    toggle. The translation file itself is a parameter of the constructor. */
module I18n {
  import opened Wrappers
  import opened Json
  import Strings
  import WebStorage

  const Supported: seq<string> := ["en", "ua"]
  const DefaultLang := "en"
  const LanguageKey := "language"

  // ------------------------------------------------------------ lookups

  /** Where the walk of `get` stands: it returned early, or it holds a
      possibly missing value. */
  datatype Walk = Stopped | At(value: Option<Json>)

  /** The index below `n` whose decimal text is `k`, if any. */
  function IndexNamed(k: string, n: nat): (r: Option<nat>)
    ensures r.Some? ==> r.value < n && Strings.NatToString(r.value) == k
    ensures r.None? ==> forall i :: 0 <= i < n ==> Strings.NatToString(i) != k
  {
    if n == 0 then None
    else if Strings.NatToString(n - 1) == k then Some(n - 1)
    else IndexNamed(k, n - 1)
  }

  /** `value[k]` on an object or an array: an object's own property; an
      array's element whose index `k` names in canonical decimal, or its
      `length`; nothing for any other name. */
  function Property(v: Json, k: string): (r: Option<Json>)
    ensures v.JObj? ==> r == Member(v, k)
    ensures v.JArr? && k == "length" ==> r == Some(JNum(|v.items|))
    ensures v.JArr? && k != "length" && (forall i :: 0 <= i < |v.items| ==> Strings.NatToString(i) != k)
            ==> r.None?
    ensures !IsObject(v) ==> r.None?
  {
    match v
    case JObj(_) => Member(v, k)
    case JArr(items) =>
      if k == "length" then Some(JNum(|items|))
      else (match IndexNamed(k, |items|)
            case Some(i) => Some(items[i])
            case None => None)
    case _ => None
  }

  /** `array["3"]` is the fourth element. */
  lemma ElementByIndex(items: seq<Json>, i: nat)
    requires i < |items|
    ensures Property(JArr(items), Strings.NatToString(i)) == Some(items[i])
  {
    var k := Strings.NatToString(i);
    assert k != "length" by { assert '0' <= k[0] <= '9'; }
    var j := IndexNamed(k, |items|);
    assert j.Some?;
    Strings.NatToStringInjective(j.value, i);
  }

  /** The `for` loop of `get` over the remaining segments: a segment is only
      followed from a truthy object (an array included). */
  function WalkKeys(v: Option<Json>, keys: seq<string>): Walk
    decreases keys
  {
    if keys == [] then At(v)
    else if TruthyOpt(v) && IsObject(v.value) then WalkKeys(Property(v.value, keys[0]), keys[1..])
    else Stopped
  }

  /** `get(key, lang)` on a document that is not `null`: the value at the
      dotted path when it is truthy, `null` (`None`) otherwise. */
  function Resolve(translations: Json, key: string, lang: string): (r: Option<Json>)
    ensures r.Some? ==> Truthy(r.value)
  {
    match WalkKeys(Member(translations, lang), Strings.Split(key, '.'))
    case Stopped => None
    case At(v) => if TruthyOpt(v) then v else None
  }

  /** Walking two paths one after the other is walking their concatenation. */
  lemma {:induction false} WalkAppend(v: Option<Json>, a: seq<string>, b: seq<string>)
    ensures WalkKeys(v, a + b) == match WalkKeys(v, a)
                                  case Stopped => Stopped
                                  case At(w) => WalkKeys(w, b)
    decreases a
  {
    if a != [] {
      assert (a + b)[0] == a[0] && (a + b)[1..] == a[1..] + b;
      if TruthyOpt(v) && IsObject(v.value) {
        WalkAppend(Property(v.value, a[0]), a[1..], b);
      }
    } else {
      assert a + b == b;
    }
  }

  /** A walk that meets something other than an object before its last
      segment gives `null`, whatever follows. */
  lemma StopsAtNonObject(v: Option<Json>, keys: seq<string>)
    requires keys != [] && !(TruthyOpt(v) && IsObject(v.value))
    ensures WalkKeys(v, keys) == Stopped
  {
  }

  /** A key without dots names a property of the language's object. */
  lemma SingleSegment(translations: Json, key: string, lang: string)
    requires '.' !in key
    requires Member(translations, lang).Some? && Member(translations, lang).value.JObj?
    ensures var m := Member(Member(translations, lang).value, key);
      Resolve(translations, key, lang) == if TruthyOpt(m) then m else None
  {
    var e := Member(translations, lang);
    assert Strings.Split(key, '.') == [key];
    assert [key][1..] == [];
    assert WalkKeys(Member(e.value, key), []) == At(Member(e.value, key));
    assert WalkKeys(e, [key]) == At(Member(e.value, key));
  }

  /** A key `a.b` is the property `b` of the object or array at `a`. */
  lemma TwoSegments(translations: Json, a: string, b: string, lang: string)
    requires '.' !in a && '.' !in b
    requires Member(translations, lang).Some? && Member(translations, lang).value.JObj?
    ensures var outer := Member(Member(translations, lang).value, a);
      Resolve(translations, a + "." + b, lang)
        == if TruthyOpt(outer) && IsObject(outer.value) && TruthyOpt(Property(outer.value, b))
           then Property(outer.value, b) else None
  {
    Strings.SplitAt(a, '.', b);
    assert Strings.Split(b, '.') == [b];
    assert Strings.Split(a + "." + b, '.') == [a, b];
    assert [a, b][1..] == [b] && [b][1..] == [];
    var e := Member(translations, lang);
    var outer := Member(e.value, a);
    assert WalkKeys(e, [a, b]) == WalkKeys(outer, [b]);
    if TruthyOpt(outer) && IsObject(outer.value) {
      assert WalkKeys(outer, [b]) == At(Property(outer.value, b));
    }
  }

  /** `get`: reading `translations[lang]` throws (`thrown`) on a `null`
      document; otherwise the loop walks the key segment by segment. */
  method Get(translations: Json, key: string, lang: string) returns (thrown: bool, r: Option<Json>)
    ensures thrown <==> translations == JNull
    ensures !thrown ==> r == Resolve(translations, key, lang)
  {
    if translations == JNull {
      return true, None;
    }
    thrown := false;
    var keys := Strings.Split(key, '.');
    var value := Member(translations, lang);
    var i := 0;
    while i < |keys|
      invariant 0 <= i <= |keys|
      invariant WalkKeys(Member(translations, lang), keys) == WalkKeys(value, keys[i..])
    {
      if TruthyOpt(value) && IsObject(value.value) {
        assert keys[i..][1..] == keys[i + 1..];
        value := Property(value.value, keys[i]);
      } else {
        return false, None;
      }
      i := i + 1;
    }
    r := if TruthyOpt(value) then value else None;
  }

  // ------------------------------------------------------- element updates

  /** The markup of the multi-line home title: trimmed lines joined by
      `<br>`. */
  function TitleHtml(t: string): string {
    Strings.Join(TrimAll(Strings.Split(t, '\n')), "<br>")
  }

  function TrimAll(lines: seq<string>): (r: seq<string>)
    ensures |r| == |lines| && forall k :: 0 <= k < |r| ==> r[k] == Strings.Trim(lines[k])
  {
    if lines == [] then [] else [Strings.Trim(lines[0])] + TrimAll(lines[1..])
  }

  /** One `<p>` per line, each trimmed. */
  function ParagraphsHtml(lines: seq<string>): string {
    if lines == [] then "" else "<p>" + Strings.Trim(lines[0]) + "</p>" + ParagraphsHtml(lines[1..])
  }

  /** `filter(keep)` on a list of lines. */
  function Keep(lines: seq<string>, keep: string -> bool): (r: seq<string>)
    ensures |r| <= |lines|
  {
    if lines == [] then []
    else (if keep(lines[0]) then [lines[0]] else []) + Keep(lines[1..], keep)
  }

  /** A line is kept exactly when it is one of the input's lines and passes
      the test. */
  lemma {:induction false} KeepMembers(lines: seq<string>, keep: string -> bool)
    ensures forall l :: l in Keep(lines, keep) <==> l in lines && keep(l)
  {
    if lines != [] {
      KeepMembers(lines[1..], keep);
      assert lines == [lines[0]] + lines[1..];
    }
  }

  /** Filtering keeps the order: a concatenation is filtered part by part. */
  lemma {:induction false} KeepAppend(a: seq<string>, b: seq<string>, keep: string -> bool)
    ensures Keep(a + b, keep) == Keep(a, keep) + Keep(b, keep)
  {
    if a == [] {
      assert a + b == b;
    } else {
      var head := if keep(a[0]) then [a[0]] else [];
      assert (a + b)[0] == a[0] && (a + b)[1..] == a[1..] + b;
      assert Keep(a + b, keep) == head + Keep(a[1..] + b, keep);
      KeepAppend(a[1..], b, keep);
      assert Keep(a, keep) == head + Keep(a[1..], keep);
    }
  }

  /** A kept line comes right after the kept lines before it. */
  lemma KeepAt(lines: seq<string>, keep: string -> bool, j: nat)
    requires j < |lines| && keep(lines[j])
    ensures |Keep(lines[..j], keep)| < |Keep(lines, keep)| && Keep(lines, keep)[|Keep(lines[..j], keep)|] == lines[j]
  {
    KeepAppend(lines[..j], lines[j..], keep);
    assert lines == lines[..j] + lines[j..];
    assert lines[j..][0] == lines[j];
  }

  /** The k-th kept line is a line that passes the test with exactly k kept
      lines before it. */
  lemma {:induction false} KeepSource(lines: seq<string>, keep: string -> bool, k: nat)
    requires k < |Keep(lines, keep)|
    ensures exists j :: 0 <= j < |lines| && |Keep(lines[..j], keep)| == k && Keep(lines, keep)[k] == lines[j] && keep(lines[j])
  {
    var n := |lines| - 1;
    var init := lines[..n];
    assert lines == init + [lines[n]];
    KeepAppend(init, [lines[n]], keep);
    assert [lines[n]][1..] == [];
    if k < |Keep(init, keep)| {
      KeepSource(init, keep, k);
      var j :| 0 <= j < |init| && |Keep(init[..j], keep)| == k && Keep(init, keep)[k] == init[j] && keep(init[j]);
      assert init[..j] == lines[..j];
    } else {
      assert lines[..n] == init;
    }
  }

  /** A line with something besides white space. */
  predicate NotBlank(l: string) {
    Strings.Trim(l) != ""
  }

  /** The lines that are not blank (`filter(p => p.trim())`). */
  function NonBlank(lines: seq<string>): (r: seq<string>)
    ensures |r| <= |lines|
  {
    Keep(lines, NotBlank)
  }

  /** Existing paragraphs take the non-blank lines, trimmed, in order; extra
      lines are dropped and extra paragraphs keep their text. */
  function FillParagraphs(existing: seq<string>, lines: seq<string>): (r: seq<string>)
    ensures |r| == |existing|
    ensures forall k :: 0 <= k < |r| ==> r[k] == if k < |lines| then Strings.Trim(lines[k]) else existing[k]
  {
    seq(|existing|, k requires 0 <= k < |existing| => if k < |lines| then Strings.Trim(lines[k]) else existing[k])
  }

  /** The paragraph branch of a block with a line break: every non-blank
      line of the translation that has a paragraph to go to lands, trimmed,
      in the paragraph whose position is the number of non-blank lines
      before it; paragraphs beyond the non-blank lines keep their text, and
      the markup stays. */
  lemma ParagraphsFromLines(e: Element, t: string)
    requires e.key != "home.title" && e.kind == Block && '\n' in t && e.paras != []
    ensures var r := Translate(e, t);
            var lines := Strings.Split(t, '\n');
      r.text == e.text && |r.paras| == |e.paras|
      && (forall j :: 0 <= j < |lines| && NotBlank(lines[j]) && |NonBlank(lines[..j])| < |e.paras|
            ==> r.paras[|NonBlank(lines[..j])|] == Strings.Trim(lines[j]))
      && (forall k :: |NonBlank(lines)| <= k < |e.paras| ==> r.paras[k] == e.paras[k])
  {
    var lines := Strings.Split(t, '\n');
    assert Translate(e, t) == e.(paras := FillParagraphs(e.paras, NonBlank(lines)));
    forall j | 0 <= j < |lines| && NotBlank(lines[j]) && |NonBlank(lines[..j])| < |e.paras|
      ensures Translate(e, t).paras[|NonBlank(lines[..j])|] == Strings.Trim(lines[j])
    {
      KeepAt(lines, NotBlank, j);
    }
  }

  /** In the same branch every filled paragraph comes from a non-blank line:
      paragraph k takes the trimmed line that has k non-blank lines before
      it. */
  lemma ParagraphSource(e: Element, t: string, k: nat)
    requires e.key != "home.title" && e.kind == Block && '\n' in t && e.paras != []
    requires k < |e.paras| && k < |NonBlank(Strings.Split(t, '\n'))|
    ensures var lines := Strings.Split(t, '\n');
      exists j :: 0 <= j < |lines| && |NonBlank(lines[..j])| == k && NotBlank(lines[j])
                  && Translate(e, t).paras[k] == Strings.Trim(lines[j])
  {
    var lines := Strings.Split(t, '\n');
    assert Translate(e, t) == e.(paras := FillParagraphs(e.paras, NonBlank(lines)));
    KeepSource(lines, NotBlank, k);
    var j :| 0 <= j < |lines| && |Keep(lines[..j], NotBlank)| == k && Keep(lines, NotBlank)[k] == lines[j] && NotBlank(lines[j]);
    assert |NonBlank(lines[..j])| == k;
  }

  /** A one-line home title is the trimmed text; two lines become two
      trimmed lines around a `<br>`. */
  lemma TitleLines(a: string, b: string)
    requires '\n' !in a && '\n' !in b
    ensures TitleHtml(a) == Strings.Trim(a)
    ensures TitleHtml(a + "\n" + b) == Strings.Trim(a) + "<br>" + Strings.Trim(b)
  {
    assert Strings.Split(a, '\n') == [a];
    Strings.SplitAt(a, '\n', b);
    assert Strings.Split(b, '\n') == [b];
    assert Strings.Split(a + "\n" + b, '\n') == [a, b];
    assert TrimAll([a, b]) == [Strings.Trim(a), Strings.Trim(b)];
    assert [Strings.Trim(a), Strings.Trim(b)][1..] == [Strings.Trim(b)];
    assert Strings.Join([Strings.Trim(a), Strings.Trim(b)], "<br>") == Strings.Trim(a) + "<br>" + Strings.Trim(b);
  }

  /** The kinds of translated element, in the order `applyTranslations`
      tells them apart. */
  datatype Kind = SubmitInput | PlainButton | WithPlaceholder | Block

  /** A translated element: its key and kind, the text written into it
      (value, text, placeholder or markup, by kind) and the texts of the `<p>`
      elements it contains. */
  datatype Element = Element(key: string, kind: Kind, text: string, paras: seq<string>)

  /** What `applyTranslations` does to one element with translation `t`. */
  function Translate(e: Element, t: string): (r: Element)
    ensures r.key == e.key && r.kind == e.kind
    ensures e.key == "home.title" ==> r == e.(text := TitleHtml(t), paras := [])
    ensures e.key != "home.title" && e.kind == PlainButton ==> r == e.(text := t, paras := [])
    ensures e.key != "home.title" && (e.kind == SubmitInput || e.kind == WithPlaceholder) ==> r == e.(text := t)
    ensures e.key != "home.title" && e.kind == Block && '\n' !in t ==> r == e.(text := t, paras := [])
  {
    if e.key == "home.title" then e.(text := TitleHtml(t), paras := [])
    else if e.kind == PlainButton then e.(text := t, paras := [])
    else if e.kind != Block then e.(text := t)
    else if '\n' in t then
      var lines := Strings.Split(t, '\n');
      if e.paras != [] then e.(paras := FillParagraphs(e.paras, NonBlank(lines)))
      else e.(text := ParagraphsHtml(lines), paras := TrimAll(lines))
    else e.(text := t, paras := [])
  }

  /** What `applyTranslations` does to one element whose lookup gave `r`
      (`None`: the update throws). A missing translation leaves the element
      alone and a string is written by `Translate`. Any other value reaches
      an assignment as `String(v)`, except where the code calls a string
      method on it: `split` for the home title, and `includes` then `split`
      in the block branch. Arrays have an `includes` of their own, so an
      array without a `"\n"` item is written as text there. */
  function Outcome(e: Element, r: Option<Json>): (o: Option<Element>)
    ensures r.None? ==> o == Some(e)
    ensures r.Some? && r.value.JStr? ==> o == Some(Translate(e, r.value.s))
    ensures o.None? <==> r.Some? && !r.value.JStr?
                         && (e.key == "home.title" || (e.kind == Block && !(r.value.JArr? && JStr("\n") !in r.value.items)))
    ensures r.Some? && !r.value.JStr? && o.Some? ==>
              o.value == e.(text := ToText(r.value), paras := if e.kind == Block || e.kind == PlainButton then [] else e.paras)
  {
    if r.None? then Some(e)
    else if r.value.JStr? then Some(Translate(e, r.value.s))
    else if e.key == "home.title" then None
    else if e.kind == PlainButton then Some(e.(text := ToText(r.value), paras := []))
    else if e.kind != Block then Some(e.(text := ToText(r.value)))
    else if r.value.JArr? && JStr("\n") !in r.value.items then Some(e.(text := ToText(r.value), paras := []))
    else None
  }

  /** The outcome of element `e`'s update under these translations: the
      lookup itself throws on a `null` document. */
  function ResultOf(e: Element, translations: Json, lang: string): Option<Element> {
    if translations == JNull then None else Outcome(e, Resolve(translations, e.key, lang))
  }

  /** The update of element `e` throws under these translations. */
  predicate Throws(e: Element, translations: Json, lang: string) {
    ResultOf(e, translations, lang).None?
  }

  /** Which elements' updates throw, in document order. */
  function Throwing(es: seq<Element>, translations: Json, lang: string): (bs: seq<bool>)
    ensures |bs| == |es| && forall k :: 0 <= k < |es| ==> (bs[k] <==> Throws(es[k], translations, lang))
  {
    seq(|es|, k requires 0 <= k < |es| => Throws(es[k], translations, lang))
  }

  /** The first position, at or after `from`, that holds `true`. */
  function FirstTrueFrom(bs: seq<bool>, from: nat): (r: Option<nat>)
    requires from <= |bs|
    decreases |bs| - from
    ensures r.Some? ==> from <= r.value < |bs| && bs[r.value]
    ensures forall k :: from <= k < (if r.Some? then r.value else |bs|) ==> !bs[k]
  {
    if from == |bs| then None
    else if bs[from] then Some(from)
    else FirstTrueFrom(bs, from + 1)
  }

  /** Where the `forEach` of `applyTranslations` stops: at the first update
      that throws, or after the last element. */
  function StopAt(es: seq<Element>, translations: Json, lang: string): (n: nat)
    ensures n <= |es|
    ensures forall k :: 0 <= k < n ==> !Throws(es[k], translations, lang)
    ensures n < |es| ==> Throws(es[n], translations, lang)
  {
    var r := FirstTrueFrom(Throwing(es, translations, lang), 0);
    if r.Some? then r.value else |es|
  }

  /** The elements after `applyTranslations`: those before the stop
      updated, the rest as they were. */
  predicate AppliedUpTo(before: seq<Element>, after: seq<Element>, translations: Json, lang: string, n: nat) {
    |after| == |before| && n <= |before|
    && (forall k :: 0 <= k < n ==> ResultOf(before[k], translations, lang) == Some(after[k]))
    && (forall k :: n <= k < |after| ==> after[k] == before[k])
  }

  /** A page whose translations are all strings (or missing) is translated
      to the end, each element by `Translate`. */
  lemma StringsNeverThrow(es: seq<Element>, translations: Json, lang: string)
    requires translations != JNull
    requires forall k :: 0 <= k < |es| ==> var r := Resolve(translations, es[k].key, lang); r.None? || r.value.JStr?
    ensures StopAt(es, translations, lang) == |es|
    ensures forall k :: 0 <= k < |es| ==> var r := Resolve(translations, es[k].key, lang);
              ResultOf(es[k], translations, lang) == Some(if r.Some? then Translate(es[k], r.value.s) else es[k])
  {
  }

  /** A `null` document makes the first element's lookup throw: nothing on
      the page is translated. */
  lemma NullDocumentStops(es: seq<Element>, lang: string)
    ensures forall e :: Throws(e, JNull, lang)
    ensures StopAt(es, JNull, lang) == 0
  {
    if es != [] {
      assert Throwing(es, JNull, lang)[0];
    }
  }

  // ------------------------------------------------------------ the module

  /** The option labels of the language toggle. */
  function LangName(lang: Json): string {
    if lang == JStr("en") then "English" else "Ukrainian"
  }

  /** The toggle's choice: English becomes Ukrainian, anything else English. */
  function ToggleLang(lang: Json): (r: string)
    ensures r in Supported
    ensures lang == JStr("en") <==> r == "ua"
  {
    if lang == JStr("en") then "ua" else "en"
  }

  /** Toggling twice from a supported language comes back to it. */
  lemma ToggleTwice(lang: string)
    requires lang in Supported
    ensures ToggleLang(JStr(ToggleLang(JStr(lang)))) == lang
  {
  }

  class I18n {
    var translations: Json
    /** `currentLang`: whatever storage held (parsed), or "en". */
    var currentLang: Json
    var elements: seq<Element>
    var htmlLang: string
    /** The language toggle, when the page has one: its `aria-label` and the
        `data-lang` and `active-lang` class of each option. */
    const hasToggle: bool
    const optionLangs: seq<string>
    var toggleLabel: string
    var optionActive: seq<bool>
    /** `setupLanguageToggle` ran and found the toggle: clicks switch. */
    var listening: bool

    ghost predicate Valid()
      reads this
    {
      |optionActive| == |optionLangs|
    }

    /** The module at start-up: the language comes from storage; when the
        translations load, the page is translated and, unless an update
        threw (the error is caught by `init`), the toggle set up. */
    constructor (store: WebStorage.Store, parse: string -> Option<Json>, loaded: Option<Json>,
                 elements: seq<Element>, hasToggle: bool, optionLangs: seq<string>)
      modifies store
      ensures Valid() && this.hasToggle == hasToggle && this.optionLangs == optionLangs
      ensures var stored := if store.available then WebStorage.ReadValue(WebStorage.Probed(old(store.items)), LanguageKey, JNull, parse)
                            else JNull;
        currentLang == if Truthy(stored) then stored else JStr(DefaultLang)
      ensures loaded.None? ==> translations == JObj(map[]) && this.elements == elements && !listening
      ensures loaded.Some? ==> translations == loaded.value
      ensures loaded.Some? ==>
                var lang := ToText(currentLang);
                var n := StopAt(elements, translations, lang);
                AppliedUpTo(elements, this.elements, translations, lang, n)
                && (n == |elements| ==> htmlLang == lang)
                && (listening <==> n == |elements| && hasToggle)
      ensures listening ==> forall k :: 0 <= k < |optionLangs| ==> (optionActive[k] <==> JStr(optionLangs[k]) == currentLang)
    {
      translations := JObj(map[]);
      var stored := store.GetItem(LanguageKey, JNull, parse);
      currentLang := if Truthy(stored) then stored else JStr(DefaultLang);
      this.elements := elements;
      htmlLang := "";
      this.hasToggle := hasToggle;
      this.optionLangs := optionLangs;
      toggleLabel := "";
      optionActive := seq(|optionLangs|, k => false);
      listening := false;
      new;
      if loaded.Some? {
        translations := loaded.value;
        var ok := ApplyTranslations();
        if ok && hasToggle {
          UpdateLanguageToggle();
          listening := true;
        }
      }
    }

    /** The body of the `forEach`: one element's lookup and update. */
    method UpdateElement(e: Element, lang: string) returns (o: Option<Element>)
      ensures o == ResultOf(e, translations, lang)
    {
      var thrown, r := Get(translations, e.key, lang);
      o := if thrown then None else Outcome(e, r);
    }

    /** `applyTranslations`: the elements are updated in document order
        until an update throws; only when none does is the document's `lang`
        set to the current language (`ok`). */
    method ApplyTranslations() returns (ok: bool)
      modifies this`elements, this`htmlLang
      ensures var lang := ToText(currentLang);
              var n := StopAt(old(elements), translations, lang);
        AppliedUpTo(old(elements), elements, translations, lang, n)
        && (ok <==> n == |old(elements)|)
        && htmlLang == if ok then lang else old(htmlLang)
    {
      var lang := ToText(currentLang);
      ghost var es := elements;
      var i := 0;
      while i < |elements|
        invariant 0 <= i <= |elements| == |es| && htmlLang == old(htmlLang)
        invariant FirstTrueFrom(Throwing(es, translations, lang), 0) == FirstTrueFrom(Throwing(es, translations, lang), i)
        invariant AppliedUpTo(es, elements, translations, lang, i)
      {
        var o := UpdateElement(elements[i], lang);
        if o.None? {
          assert Throwing(es, translations, lang)[i];
          return false;
        }
        elements := elements[i := o.value];
        assert !Throwing(es, translations, lang)[i];
        i := i + 1;
      }
      htmlLang := lang;
      ok := true;
    }

    /** `switch(lang)`: an unsupported language changes nothing; a supported
        one becomes current, is stored under `language` (a refused write is
        ignored) and the page is translated again, which may throw (`ok`
        false) out of `switch`. */
    method Switch(lang: string, store: WebStorage.Store, stringify: Json -> string) returns (ok: bool)
      modifies this`currentLang, this`elements, this`htmlLang, store`items
      ensures lang !in Supported ==> ok && unchanged(this) && unchanged(store)
      ensures lang in Supported ==> currentLang == JStr(lang)
      ensures lang in Supported ==>
                var n := StopAt(old(elements), translations, lang);
                AppliedUpTo(old(elements), elements, translations, lang, n)
                && (ok <==> n == |old(elements)|)
                && htmlLang == if ok then lang else old(htmlLang)
      ensures lang in Supported ==>
                store.items == if old(store.Accepts(LanguageKey, lang)) then WebStorage.Probed(old(store.items))[LanguageKey := lang]
                               else if store.available then WebStorage.Probed(old(store.items))
                               else old(store.items)
    {
      if lang !in Supported {
        return true;
      }
      currentLang := JStr(lang);
      var _ := store.SetItem(LanguageKey, JStr(lang), stringify);
      ok := ApplyTranslations();
    }

    /** `updateLanguageToggle`: the label names the current language and
        exactly the options for it are marked active. */
    method UpdateLanguageToggle()
      requires Valid()
      modifies this`toggleLabel, this`optionActive
      ensures Valid()
      ensures toggleLabel == "Switch language (current: " + LangName(currentLang) + ")"
      ensures forall k :: 0 <= k < |optionLangs| ==> (optionActive[k] <==> JStr(optionLangs[k]) == currentLang)
    {
      toggleLabel := "Switch language (current: " + LangName(currentLang) + ")";
      var i := 0;
      while i < |optionLangs|
        invariant 0 <= i <= |optionLangs| && Valid() && toggleLabel == "Switch language (current: " + LangName(currentLang) + ")"
        invariant forall k :: 0 <= k < i ==> (optionActive[k] <==> JStr(optionLangs[k]) == currentLang)
      {
        optionActive := optionActive[i := JStr(optionLangs[i]) == currentLang];
        i := i + 1;
      }
    }

    /** A click on the toggle, once its listener is attached: switches to
        the other language and, unless the switch threw, marks its options. */
    method ToggleClick(store: WebStorage.Store, stringify: Json -> string)
      requires Valid()
      modifies this`currentLang, this`elements, this`htmlLang, this`toggleLabel, this`optionActive, store`items
      ensures Valid()
      ensures !listening ==> unchanged(this) && unchanged(store)
      ensures listening ==> currentLang == JStr(ToggleLang(old(currentLang)))
      ensures listening ==> var lang := ToggleLang(old(currentLang));
                var n := StopAt(old(elements), translations, lang);
                AppliedUpTo(old(elements), elements, translations, lang, n)
                && htmlLang == (if n == |old(elements)| then lang else old(htmlLang))
                && store.items == (if old(store.Accepts(LanguageKey, lang)) then WebStorage.Probed(old(store.items))[LanguageKey := lang]
                                   else if store.available then WebStorage.Probed(old(store.items))
                                   else old(store.items))
      ensures listening ==> var lang := ToggleLang(old(currentLang));
                (StopAt(old(elements), translations, lang) == |old(elements)| ==>
                   toggleLabel == "Switch language (current: " + LangName(JStr(lang)) + ")"
                   && forall k :: 0 <= k < |optionLangs| ==> (optionActive[k] <==> optionLangs[k] == lang))
                && (StopAt(old(elements), translations, lang) < |old(elements)| ==>
                      optionActive == old(optionActive) && toggleLabel == old(toggleLabel))
    {
      if !listening {
        return;
      }
      var ok := Switch(ToggleLang(currentLang), store, stringify);
      if ok {
        UpdateLanguageToggle();
      }
    }
  }
}
