/** docs/js/components/FormValidator.js: validation of the contact form.
    Each rule may require a value, constrain it by a pattern and by a custom
    check; a registered field has an input (its raw value), an error element
    (its text) and an `aria-invalid` attribute. Patterns and custom checks are
    predicates; the site's e-mail pattern from docs/js/config.js is written
    out. */
module FormValidator {
  import opened Wrappers
  import Strings

  /** A validation rule; the messages are `errorMessage` and the two entries
      of `errorMessages`, each possibly missing. */
  datatype Rule = Rule(
    required: bool,
    pattern: Option<string -> bool>,
    validator: Option<string -> bool>,
    errorMessage: Option<string>,
    requiredMessage: Option<string>,
    patternMessage: Option<string>)

  /** `a || b` for messages; a message that is missing altogether shows as
      empty text (`textContent` is a nullable string, so `undefined`
      clears it). */
  function Message(primary: Option<string>, fallback: Option<string>): (m: string)
    ensures primary.Some? && primary.value != "" ==> m == primary.value
    ensures (primary.None? || primary.value == "") && fallback.Some? ==> m == fallback.value
    ensures (primary.None? || primary.value == "") && fallback.None? ==> m == ""
  {
    if primary.Some? && primary.value != "" then primary.value else fallback.GetOr("")
  }

  /** The outcome of `validateField` on a raw input value: `None` when the
      field passes, otherwise the message shown. */
  function Check(rule: Rule, raw: string): Option<string> {
    var value := Strings.Trim(raw);
    if rule.required && value == "" then Some(Message(rule.requiredMessage, rule.errorMessage))
    else if rule.pattern.Some? && value != "" && !rule.pattern.value(value) then
      Some(Message(rule.patternMessage, rule.errorMessage))
    else if rule.validator.Some? && !rule.validator.value(value) then Some(rule.errorMessage.GetOr(""))
    else None
  }

  /** The checks run in the order required, pattern, custom, and the first
      that fails decides the message; a value passes exactly when none fails.
      The pattern is never applied to an empty value. */
  lemma CheckOrder(rule: Rule, raw: string)
    ensures var v := Strings.Trim(raw);
      (Check(rule, raw).None? <==>
         !(rule.required && v == "")
         && !(rule.pattern.Some? && v != "" && !rule.pattern.value(v))
         && !(rule.validator.Some? && !rule.validator.value(v)))
    ensures var v := Strings.Trim(raw);
      rule.required && v == "" ==> Check(rule, raw) == Some(Message(rule.requiredMessage, rule.errorMessage))
    ensures var v := Strings.Trim(raw);
      (!(rule.required && v == "") && rule.pattern.Some? && v != "" && !rule.pattern.value(v))
      ==> Check(rule, raw) == Some(Message(rule.patternMessage, rule.errorMessage))
    ensures var v := Strings.Trim(raw);
      v == "" && !rule.required && rule.validator.None? ==> Check(rule, raw).None?
  {
  }

  // --------------------------------------------------- the e-mail pattern

  /** `s[lo..hi]` is a run of the e-mail pattern's `[^\s@]+`: non-empty,
      without white space or `@`. */
  predicate AtomAt(s: string, lo: int, hi: int)
    requires 0 <= lo <= hi <= |s|
  {
    lo < hi && forall i :: lo <= i < hi ==> !Strings.IsSpace(s[i]) && s[i] != '@'
  }

  /** What `/^[^\s@]+@[^\s@]+\.[^\s@]+$/` accepts: a local part, `@`, a
      domain part, a dot and a last part, the three parts being such runs. */
  ghost predicate EmailShape(s: string) {
    exists at, dot :: 0 < at < dot < |s| - 1 && s[at] == '@' && s[dot] == '.'
      && AtomAt(s, 0, at) && AtomAt(s, at + 1, dot) && AtomAt(s, dot + 1, |s|)
  }

  /** The test the validator runs: no white space, exactly one `@` that is not
      first, and a dot at least two places after it and before the last
      character. */
  predicate MatchesEmail(s: string) {
    (forall i :: 0 <= i < |s| ==> !Strings.IsSpace(s[i]))
    && '@' in s
    && var at := Strings.FirstIndex(s, '@');
       0 < at && (forall i :: at < i < |s| ==> s[i] != '@')
       && exists dot | at + 1 < dot < |s| - 1 :: s[dot] == '.'
  }

  /** The scan agrees with the pattern on every string. */
  lemma MatchesEmailIsPattern(s: string)
    ensures MatchesEmail(s) <==> EmailShape(s)
  {
    if MatchesEmail(s) {
      MatchesEmailShape(s);
    }
    if EmailShape(s) {
      ShapeMatchesEmail(s);
    }
  }

  lemma MatchesEmailShape(s: string)
    requires MatchesEmail(s)
    ensures EmailShape(s)
  {
    var at := Strings.FirstIndex(s, '@');
    var dot :| at + 1 < dot < |s| - 1 && s[dot] == '.';
    assert forall i :: 0 <= i < at ==> s[i] == s[..at][i];
    assert AtomAt(s, 0, at) && AtomAt(s, at + 1, dot) && AtomAt(s, dot + 1, |s|);
  }

  lemma ShapeMatchesEmail(s: string)
    requires EmailShape(s)
    ensures MatchesEmail(s)
  {
    var at, dot :| 0 < at < dot < |s| - 1 && s[at] == '@' && s[dot] == '.'
      && AtomAt(s, 0, at) && AtomAt(s, at + 1, dot) && AtomAt(s, dot + 1, |s|);
    forall i | 0 <= i < |s|
      ensures !Strings.IsSpace(s[i]) && (i != at ==> s[i] != '@')
    {
      if i < at {
        assert AtomAt(s, 0, at);
      } else if at < i < dot {
        assert AtomAt(s, at + 1, dot);
      } else if dot < i {
        assert AtomAt(s, dot + 1, |s|);
      }
    }
    assert '@' in s by {
      assert s[at] == '@';
    }
    assert '@' !in s[..at] by {
      forall i | 0 <= i < at ensures s[..at][i] != '@' {
        assert s[..at][i] == s[i];
      }
    }
    var first := Strings.FirstIndex(s, '@');
    assert s[first] == '@';
  }

  // ---------------------------------------------------- the default rules

  const NameRequired: string := "Please enter your name"
  const EmailRequired: string := "Please enter your email"
  const EmailInvalid: string := "Please enter a valid email address"
  const MessageRequired: string := "Please enter a message"

  /** `getDefaultRules`, in its key order. */
  function DefaultRules(): map<string, Rule> {
    map[
      "name" := Rule(true, None, None, Some(NameRequired), None, None),
      "email" := Rule(true, Some(s => MatchesEmail(s)), None, None, Some(EmailRequired), Some(EmailInvalid)),
      "message" := Rule(true, None, None, Some(MessageRequired), None, None)
    ]
  }

  const DefaultKeys: seq<string> := ["name", "email", "message"]

  /** Under the default rules an e-mail is rejected as missing when blank,
      as invalid when it fails the pattern, and accepted otherwise. */
  lemma DefaultEmailRule(raw: string)
    ensures var v := Strings.Trim(raw);
      Check(DefaultRules()["email"], raw)
        == if v == "" then Some(EmailRequired)
           else if !EmailShape(v) then Some(EmailInvalid)
           else None
  {
    MatchesEmailIsPattern(Strings.Trim(raw));
  }

  /** A blank name or message is rejected with its message; anything else
      is accepted. */
  lemma DefaultTextRules(raw: string)
    ensures Check(DefaultRules()["name"], raw) == if Strings.Trim(raw) == "" then Some(NameRequired) else None
    ensures Check(DefaultRules()["message"], raw) == if Strings.Trim(raw) == "" then Some(MessageRequired) else None
  {
  }

  predicate Distinct(s: seq<string>) {
    forall i, j :: 0 <= i < j < |s| ==> s[i] != s[j]
  }

  /** The rules whose input and error element both exist, in rule order. */
  function Registered(keys: seq<string>, inputs: map<string, string>, errorEls: map<string, string>): (r: seq<string>)
    ensures forall f :: f in r <==> f in keys && f in inputs && f in errorEls
  {
    if keys == [] then []
    else
      var init := keys[..|keys| - 1];
      var k := keys[|keys| - 1];
      assert keys == init + [k];
      Registered(init, inputs, errorEls) + (if k in inputs && k in errorEls then [k] else [])
  }

  lemma {:induction false} RegisteredDistinct(keys: seq<string>, inputs: map<string, string>, errorEls: map<string, string>)
    requires Distinct(keys)
    ensures Distinct(Registered(keys, inputs, errorEls))
  {
    if keys != [] {
      var init := keys[..|keys| - 1];
      assert keys == init + [keys[|keys| - 1]];
      assert keys[|keys| - 1] !in init;
      RegisteredDistinct(init, inputs, errorEls);
    }
  }

  /** The error text a field shows after validation. */
  function ErrorText(verdict: Option<string>): string {
    match verdict
    case Some(m) => m
    case None => ""
  }

  function AriaInvalid(verdict: Option<string>): string {
    if verdict.Some? then "true" else "false"
  }

  class FormValidator {
    const rules: map<string, Rule>
    /** The rule names in declaration order. */
    const keys: seq<string>
    /** The registered fields, in registration order (`this.fields`). */
    var fields: seq<string>
    var value: map<string, string>
    var errorText: map<string, string>
    var ariaInvalid: map<string, string>

    ghost predicate Valid()
      reads this
    {
      Distinct(fields)
      && forall f :: f in fields ==> f in rules && f in value && f in errorText
    }

    /** The form with the given rules, on a page whose inputs (with their
        values) and error elements (with their texts) are given; `cacheFields`
        runs at once. */
    constructor (rules: map<string, Rule>, keys: seq<string>,
                 inputs: map<string, string>, errorEls: map<string, string>)
      requires Distinct(keys) && forall k :: k in keys <==> k in rules
      ensures Valid() && this.rules == rules && this.keys == keys
      ensures fields == Registered(keys, inputs, errorEls)
      ensures value == inputs && errorText == errorEls && ariaInvalid == map[]
    {
      this.rules := rules;
      this.keys := keys;
      value := inputs;
      errorText := errorEls;
      ariaInvalid := map[];
      fields := [];
      new;
      CacheFields();
    }

    /** `cacheFields`: registers, in rule order, each rule whose input and
        error element both exist. */
    method CacheFields()
      requires Distinct(keys) && forall k :: k in keys ==> k in rules
      requires fields == []
      modifies this`fields
      ensures Valid()
      ensures fields == Registered(keys, value, errorText)
    {
      var i := 0;
      while i < |keys|
        invariant 0 <= i <= |keys|
        invariant fields == Registered(keys[..i], value, errorText)
      {
        var k := keys[i];
        assert keys[..i + 1][..i] == keys[..i];
        if k in value && k in errorText {
          fields := fields + [k];
        }
        i := i + 1;
      }
      assert keys[..i] == keys;
      RegisteredDistinct(keys, value, errorText);
    }

    /** `showFieldError`. */
    method ShowFieldError(name: string, message: string)
      requires Valid()
      modifies this`errorText, this`ariaInvalid
      ensures Valid()
      ensures name in fields ==> errorText == old(errorText)[name := message]
                                 && ariaInvalid == old(ariaInvalid)[name := "true"]
      ensures name !in fields ==> unchanged(this)
    {
      if name in fields {
        errorText := errorText[name := message];
        ariaInvalid := ariaInvalid[name := "true"];
      }
    }

    /** `clearFieldError`. */
    method ClearFieldError(name: string)
      requires Valid()
      modifies this`errorText, this`ariaInvalid
      ensures Valid()
      ensures name in fields ==> errorText == old(errorText)[name := ""]
                                 && ariaInvalid == old(ariaInvalid)[name := "false"]
      ensures name !in fields ==> unchanged(this)
    {
      if name in fields {
        errorText := errorText[name := ""];
        ariaInvalid := ariaInvalid[name := "false"];
      }
    }

    /** `validateField(name)`: an unregistered field is valid; otherwise the
        field's rule decides and its error text and `aria-invalid` show it. */
    method ValidateField(name: string) returns (ok: bool)
      requires Valid()
      modifies this`errorText, this`ariaInvalid
      ensures Valid()
      ensures name !in fields ==> ok && unchanged(this)
      ensures name in fields ==>
                var verdict := Check(rules[name], value[name]);
                ok == verdict.None?
                && errorText == old(errorText)[name := ErrorText(verdict)]
                && ariaInvalid == old(ariaInvalid)[name := AriaInvalid(verdict)]
    {
      if name !in fields {
        return true;
      }
      var verdict := Check(rules[name], value[name]);
      if verdict.Some? {
        ShowFieldError(name, verdict.value);
        ok := false;
      } else {
        ClearFieldError(name);
        ok := true;
      }
    }

    /** The field shows the verdict of its rule on its current value. */
    ghost predicate Shows(f: string)
      reads this
      requires f in rules && f in value
    {
      f in errorText && errorText[f] == ErrorText(Check(rules[f], value[f]))
      && f in ariaInvalid && ariaInvalid[f] == AriaInvalid(Check(rules[f], value[f]))
    }

    /** The first `i` registered fields show their verdicts. */
    ghost predicate ShownUpTo(i: nat)
      reads this
      requires Valid() && i <= |fields|
    {
      forall k :: 0 <= k < i ==> Shows(fields[k])
    }

    /** One round of `validateAll`: validates the `i`-th field. */
    method ValidateNth(i: nat) returns (ok: bool)
      requires Valid() && i < |fields| && ShownUpTo(i)
      modifies this`errorText, this`ariaInvalid
      ensures Valid() && ShownUpTo(i + 1)
      ensures ok == Check(rules[fields[i]], value[fields[i]]).None?
      ensures forall f :: f in old(errorText) && f !in fields ==> f in errorText && errorText[f] == old(errorText)[f]
    {
      ok := ValidateField(fields[i]);
      forall k | 0 <= k < i ensures Shows(fields[k]) {
        assert fields[k] != fields[i];
        assert old(Shows(fields[k]));
      }
    }

    /** The first `i` registered fields pass their rules. */
    ghost predicate PassUpTo(i: nat)
      reads this`fields, this`value
      requires i <= |fields| && forall k :: 0 <= k < i ==> fields[k] in rules && fields[k] in value
    {
      i == 0 || (PassUpTo(i - 1) && Check(rules[fields[i - 1]], value[fields[i - 1]]).None?)
    }

    /** `PassUpTo(i)` holds exactly when each of the first `i` fields passes. */
    lemma {:induction false} PassUpToMeans(i: nat)
      requires i <= |fields| && forall k :: 0 <= k < i ==> fields[k] in rules && fields[k] in value
      ensures PassUpTo(i) <==> forall k :: 0 <= k < i ==> Check(rules[fields[k]], value[fields[k]]).None?
    {
      if i > 0 {
        PassUpToMeans(i - 1);
      }
    }

    /** `validateAll`: every registered field is validated (no early stop),
        and the form is valid when all of them are. */
    method ValidateAll() returns (ok: bool)
      requires Valid()
      modifies this`errorText, this`ariaInvalid
      ensures Valid() && ShownUpTo(|fields|)
      ensures ok <==> PassUpTo(|fields|)
      ensures forall f :: f in old(errorText) && f !in fields ==> f in errorText && errorText[f] == old(errorText)[f]
    {
      ok := true;
      var i := 0;
      while i < |fields|
        invariant 0 <= i <= |fields| && Valid() && ShownUpTo(i)
        invariant unchanged(this`fields, this`value)
        invariant ok <==> PassUpTo(i)
        invariant forall f :: f in old(errorText) && f !in fields ==> f in errorText && errorText[f] == old(errorText)[f]
      {
        var fieldOk := ValidateNth(i);
        if !fieldOk {
          ok := false;
        }
        assert ok <==> PassUpTo(i + 1);
        i := i + 1;
      }
    }

    /** The `input` listener: the new value is kept, and a non-blank one
        clears the field's error. */
    method HandleInput(name: string, raw: string)
      requires Valid() && name in fields
      modifies this`value, this`errorText, this`ariaInvalid
      ensures Valid() && value == old(value)[name := raw]
      ensures Strings.Trim(raw) != "" ==> errorText == old(errorText)[name := ""]
                                           && ariaInvalid == old(ariaInvalid)[name := "false"]
      ensures Strings.Trim(raw) == "" ==> errorText == old(errorText) && ariaInvalid == old(ariaInvalid)
    {
      value := value[name := raw];
      if Strings.Trim(raw) != "" {
        ClearFieldError(name);
      }
    }

    /** `reset`: every registered field loses its error. */
    method Reset()
      requires Valid()
      modifies this`errorText, this`ariaInvalid
      ensures Valid()
      ensures forall f :: f in fields ==> errorText[f] == "" && f in ariaInvalid && ariaInvalid[f] == "false"
      ensures forall f :: f in old(errorText) && f !in fields ==> f in errorText && errorText[f] == old(errorText)[f]
    {
      var i := 0;
      while i < |fields|
        invariant 0 <= i <= |fields| && Valid()
        invariant forall k :: 0 <= k < i ==> errorText[fields[k]] == "" && fields[k] in ariaInvalid && ariaInvalid[fields[k]] == "false"
        invariant forall f :: f in old(errorText) && f !in fields ==> f in errorText && errorText[f] == old(errorText)[f]
      {
        ClearFieldError(fields[i]);
        i := i + 1;
      }
      forall f | f in fields
        ensures errorText[f] == "" && f in ariaInvalid && ariaInvalid[f] == "false"
      {
        var k :| 0 <= k < |fields| && fields[k] == f;
      }
    }

    /** `getData`: the trimmed value of every registered field. */
    method GetData() returns (data: map<string, string>)
      requires Valid()
      ensures data.Keys == set f | f in fields
      ensures forall f :: f in data ==> data[f] == Strings.Trim(value[f])
    {
      data := map[];
      var i := 0;
      while i < |fields|
        invariant 0 <= i <= |fields|
        invariant data.Keys == set f | f in fields[..i]
        invariant forall f :: f in data ==> f in value && data[f] == Strings.Trim(value[f])
      {
        assert fields[..i + 1] == fields[..i] + [fields[i]];
        data := data[fields[i] := Strings.Trim(value[fields[i]])];
        i := i + 1;
      }
      assert fields[..i] == fields;
    }
  }
}
