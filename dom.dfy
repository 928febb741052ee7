/**
 * The pieces of browser state that both scripts share: the document's root
 * element, the body's inline style and the browser-local key-value store.
 */
module Dom {
  import opened Wrappers

  /** `document.documentElement`: its `lang` and `dir` attributes and whether its class list holds `dark`. */
  class Root {
    var lang: string
    var dir: string
    var dark: bool

    constructor (lang: string, dir: string, dark: bool)
      ensures this.lang == lang && this.dir == dir && this.dark == dark
    {
      this.lang, this.dir, this.dark := lang, dir, dark;
    }
  }

  /** `document.body`: only its inline `overflow` style is touched by the scripts. */
  class Body {
    var overflow: string

    constructor (overflow: string)
      ensures this.overflow == overflow
    {
      this.overflow := overflow;
    }
  }

  /** `localStorage`, a string-to-string map that persists across page loads. */
  class LocalStorage {
    var items: map<string, string>

    constructor (items: map<string, string>)
      ensures this.items == items
    {
      this.items := items;
    }

    /** `getItem(key)`: null when the key was never stored. */
    function GetItem(key: string): (r: Option<string>)
      reads this
      ensures r.Some? <==> key in items
      ensures r.Some? ==> r.value == items[key]
    {
      if key in items then Some(items[key]) else None
    }

    /** `setItem(key, value)`: overwrites one entry and leaves the others alone. */
    method SetItem(key: string, value: string)
      modifies this
      ensures items == old(items)[key := value]
      ensures GetItem(key) == Some(value)
    {
      items := items[key := value];
    }
  }

  /** The `dir` written beside a language code: right-to-left exactly for Arabic. */
  function Direction(lang: string): (dir: string)
    ensures dir == "rtl" <==> lang == "ar"
    ensures dir == "rtl" || dir == "ltr"
  {
    if lang == "ar" then "rtl" else "ltr"
  }
}
