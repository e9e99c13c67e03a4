/**
 * The browser's local storage as the widget uses it (src/useLocalStorage.js):
 * one accessor that writes when given a truthy value and reads otherwise.
 * Stored values are the JSON texts of strings.
 */
module Storage {
  import opened Wrappers
  import opened Json

  /**
   * JavaScript truthiness of the accessor's optional string argument:
   * `undefined` (`None`) and the empty string are falsy.
   */
  predicate Truthy(value: Option<string>) {
    value.Some? && value.value != []
  }

  /** The entry for `key` is missing or holds the JSON text of a string, so `JSON.parse` does not throw. */
  predicate Readable(items: map<string, string>, key: string) {
    key in items ==> Deserialise(items[key]).Some?
  }

  /**
   * The read branch: a missing entry parses as `null`, and a falsy parsed
   * value (here the empty string) is turned into `null`.
   */
  function Lookup(items: map<string, string>, key: string): (r: Option<string>)
    requires Readable(items, key)
    ensures key !in items ==> r == None
    ensures r.Some? ==> r.value != [] && key in items && Deserialise(items[key]) == r
    ensures key in items && Deserialise(items[key]) != Some([]) ==> r.Some?
  {
    if key !in items then None
    else
      var v := Deserialise(items[key]).value;
      if v == [] then None else Some(v)
  }

  /** The contents after the write branch has stored `value` under `key`. */
  function Written(items: map<string, string>, key: string, value: string): (r: map<string, string>)
    ensures r.Keys == items.Keys + {key}
    ensures r[key] == Serialise(value) && Deserialise(r[key]) == Some(value)
    ensures forall k :: k in items && k != key ==> r[k] == items[k]
  {
    DeserialiseSerialise(value);
    items[key := Serialise(value)]
  }

  /**
   * Write then read: the written non-empty string comes back, and every other
   * key reads as it did before.
   */
  lemma WriteThenRead(items: map<string, string>, key: string, value: string, other: string)
    requires value != []
    requires other != key && Readable(items, other)
    ensures Readable(Written(items, key, value), key) && Lookup(Written(items, key, value), key) == Some(value)
    ensures Readable(Written(items, key, value), other) && Lookup(Written(items, key, value), other) == Lookup(items, other)
  {
  }

  /** Writing keeps every entry readable that was readable before, and makes the written one readable. */
  lemma WriteKeepsReadable(items: map<string, string>, key: string, value: string)
    requires forall k :: Readable(items, k)
    ensures forall k :: Readable(Written(items, key, value), k)
  {
    forall k ensures Readable(Written(items, key, value), k) {
      if k == key {
        DeserialiseSerialise(value);
      } else {
        assert Readable(items, k);
      }
    }
  }

  /** `window.localStorage`: a map from keys to stored texts, updated in place. */
  class LocalStorage {
    var items: map<string, string>

    constructor (items: map<string, string>)
      ensures this.items == items
    {
      this.items := items;
    }
  }

  /**
   * `useLocalStorage(key, value)`. A truthy value is serialised and stored
   * under `key`, replacing that entry only, and nothing is returned; otherwise
   * the store is left alone and the read branch's result is returned.
   */
  method UseLocalStorage(store: LocalStorage, key: string, value: Option<string>) returns (r: Option<string>)
    requires !Truthy(value) ==> Readable(store.items, key)
    modifies store
    ensures Truthy(value) ==> store.items == Written(old(store.items), key, value.value) && r == None
    ensures !Truthy(value) ==> store.items == old(store.items) && r == Lookup(store.items, key)
  {
    if Truthy(value) {
      var text := Serialise(value.value);
      store.items := store.items[key := text];
      return None;
    } else {
      var parsed := if key in store.items then Deserialise(store.items[key]) else None;
      r := if parsed.Some? && parsed.value != [] then parsed else None;
    }
  }
}
