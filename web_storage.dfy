/** docs/js/utils/storage.js: a wrapper around `localStorage` that never
    throws. Every call first probes the store by writing and removing the key
    `__storage_test__`; when the probe fails (storage disabled or blocked) the
    call returns its fallback and changes nothing. `JSON.parse` and
    `JSON.stringify` are parameters. */
module WebStorage {
  import opened Wrappers
  import opened Json

  const ProbeKey: string := "__storage_test__"

  /** The store after a successful availability probe: the probe key is gone. */
  function Probed(items: map<string, string>): (r: map<string, string>)
    ensures r.Keys == items.Keys - {ProbeKey}
    ensures forall k :: k in r ==> r[k] == items[k]
  {
    items - {ProbeKey}
  }

  /** What `getStorageItem` returns when reading `key` from `items`: the
      default on a miss, the parsed value when the stored text is JSON, the
      raw text otherwise. */
  function ReadValue(items: map<string, string>, key: string, default: Json,
                     parse: string -> Option<Json>): (r: Json)
    ensures key !in items ==> r == default
    ensures key in items && parse(items[key]).Some? ==> r == parse(items[key]).value
    ensures key in items && parse(items[key]).None? ==> r == JStr(items[key])
  {
    if key !in items then default
    else match parse(items[key])
      case Some(v) => v
      case None => JStr(items[key])
  }

  /** What `setStorageItem` writes: strings verbatim, other values stringified. */
  function Serialize(value: Json, stringify: Json -> string): (r: string)
    ensures value.JStr? ==> r == value.s
  {
    if value.JStr? then value.s else stringify(value)
  }

  /** A string that is not JSON text is read back as itself after it is set. */
  lemma SetThenGetText(items: map<string, string>, key: string, text: string, default: Json,
                       parse: string -> Option<Json>, stringify: Json -> string)
    requires key != ProbeKey
    requires parse(text).None?
    ensures ReadValue(Probed(Probed(items)[key := Serialize(JStr(text), stringify)]), key, default, parse) == JStr(text)
  {
  }

  /** In general a set value is read back as the parse of its serialization,
      or as that serialization when it does not parse. */
  lemma SetThenGet(items: map<string, string>, key: string, value: Json, default: Json,
                   parse: string -> Option<Json>, stringify: Json -> string)
    requires key != ProbeKey
    ensures var text := Serialize(value, stringify);
            ReadValue(Probed(Probed(items)[key := text]), key, default, parse)
              == parse(text).GetOr(JStr(text))
  {
  }

  /** Setting the probe key itself is undone by the next call's probe, so the
      value is never read back. */
  lemma ProbeKeyIsNeverReadBack(items: map<string, string>, value: Json, default: Json,
                                parse: string -> Option<Json>, stringify: Json -> string)
    ensures ReadValue(Probed(Probed(items)[ProbeKey := Serialize(value, stringify)]), ProbeKey, default, parse) == default
  {
  }

  /** After a removal the key reads as the default and every other key reads
      as before. */
  lemma RemoveThenGet(items: map<string, string>, key: string, other: string, default: Json,
                      parse: string -> Option<Json>)
    requires other != key && other != ProbeKey
    ensures ReadValue(Probed(Probed(items) - {key}), key, default, parse) == default
    ensures ReadValue(Probed(Probed(items) - {key}), other, default, parse)
            == ReadValue(Probed(items), other, default, parse)
  {
  }

  /** The browser's `localStorage`: whether it can be used, its entries, and
      which contents it has room for (`fits`): a write that would leave
      contents it has no room for throws, as a quota-exceeded `setItem` does. */
  class Store {
    var available: bool
    var items: map<string, string>
    const fits: map<string, string> -> bool

    constructor (available: bool, items: map<string, string>, fits: map<string, string> -> bool)
      ensures this.available == available && this.items == items && this.fits == fits
    {
      this.available := available;
      this.items := items;
      this.fits := fits;
    }

    /** A write of `text` under `key` after a successful probe succeeds. */
    predicate Accepts(key: string, text: string)
      reads this
    {
      available && fits(Probed(items)[key := text])
    }

    /** `getStorageItem(key, defaultValue)`. */
    method GetItem(key: string, default: Json, parse: string -> Option<Json>) returns (v: Json)
      modifies this`items
      ensures !available ==> v == default && items == old(items)
      ensures available ==> items == Probed(old(items)) && v == ReadValue(items, key, default, parse)
    {
      if !available {
        v := default;
        return;
      }
      items := Probed(items);
      v := ReadValue(items, key, default, parse);
    }

    /** `setStorageItem(key, value)`: `false` when the probe fails or when
        the write itself throws; in the second case the store is as the
        probe left it. */
    method SetItem(key: string, value: Json, stringify: Json -> string) returns (ok: bool)
      modifies this`items
      ensures ok == old(Accepts(key, Serialize(value, stringify)))
      ensures !available ==> items == old(items)
      ensures available && ok ==> items == Probed(old(items))[key := Serialize(value, stringify)]
      ensures available && !ok ==> items == Probed(old(items))
    {
      if !available {
        return false;
      }
      var text := Serialize(value, stringify);
      ok := fits(Probed(items)[key := text]);
      items := if ok then Probed(items)[key := text] else Probed(items);
    }

    /** `removeStorageItem(key)`. */
    method RemoveItem(key: string) returns (ok: bool)
      modifies this`items
      ensures ok == available
      ensures !available ==> items == old(items)
      ensures available ==> items == Probed(old(items)) - {key}
    {
      if !available {
        return false;
      }
      items := Probed(items) - {key};
      ok := true;
    }

    /** `clearStorage()`. */
    method Clear() returns (ok: bool)
      modifies this`items
      ensures ok == available
      ensures items == if available then map[] else old(items)
    {
      if !available {
        return false;
      }
      items := map[];
      ok := true;
    }
  }
}
