/** The browser's `localStorage`: one string map, read with getItem and written with setItem. */
module Storage {
  import opened Options

  /** `localStorage.getItem(key)` on a snapshot of the store: null (None) when the key is absent. */
  function Lookup(items: map<string, string>, key: string): (r: Option<string>)
    ensures r.Some? <==> key in items
    ensures r.Some? ==> r.value == items[key]
  {
    if key in items then Some(items[key]) else None
  }

  class LocalStorage {
    var items: map<string, string>

    constructor (initial: map<string, string>)
      ensures items == initial
    {
      items := initial;
    }

    method GetItem(key: string) returns (r: Option<string>)
      ensures r == Lookup(items, key)
    {
      r := Lookup(items, key);
    }

    method SetItem(key: string, value: string)
      modifies this
      ensures items == old(items)[key := value]
    {
      items := items[key := value];
    }
  }
}
