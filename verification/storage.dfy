/**
 * The browser's `localStorage`: one key-value store per origin, shared by every
 * component of the page. The wordbook is the only component that uses it.
 */
module BrowserStorage {
  import opened Wrappers

  /**
   * What a key holds. The wordbook writes the JSON text of a list of strings;
   * the model keeps that list decoded (`Words`). `Blank` is the empty text, the
   * one stored string that JavaScript treats as false.
   */
  datatype Item = Blank | Words(list: seq<string>)

  class LocalStorage {
    var items: map<string, Item>

    constructor (initial: map<string, Item>)
      ensures items == initial
    {
      items := initial;
    }

    /** `getItem`: what the key holds, or None (JavaScript's `null`) when it was never written. */
    function GetItem(key: string): Option<Item>
      reads this
    {
      if key in items then Some(items[key]) else None
    }

    /** `setItem`: overwrites one key and leaves every other key as it was. */
    method SetItem(key: string, value: Item)
      modifies this
      ensures items == old(items)[key := value]
      // a read right after the write gives back what was written
      ensures GetItem(key) == Some(value)
      // every other key reads as before
      ensures forall k :: k != key ==> GetItem(k) == old(GetItem(k))
    {
      items := items[key := value];
    }
  }
}
