/**
 * The language switcher of assets/i18n.js: a store of fetched bundles keyed by
 * language code, and the engine that applies a bundle to the tagged elements,
 * updates the document's `lang`/`dir` and persists the choice.
 */
module I18n {
  import opened Wrappers
  import opened Translation
  import opened Binding
  import opened Dom

  /**
   * What `fetch('locales/<lang>.json')` can produce: a thrown network error, or
   * a response with its `ok` flag and, when `response.json()` succeeds, the
   * parsed top-level object.
   */
  datatype Response = NetworkError | Reply(ok: bool, body: Option<map<string, Tree>>)

  /** `fetchTranslations`: the parsed bundle, or `{}` on any failure (never an error to the caller). */
  function FetchTranslations(resp: Response): (bundle: Tree)
    ensures bundle.Node?
    ensures resp.NetworkError? || !resp.ok || resp.body.None? ==> bundle == Node(map[])
    ensures resp.Reply? && resp.ok && resp.body.Some? ==> bundle.children == resp.body.value
  {
    match resp
    case NetworkError => Node(map[])
    case Reply(ok, body) =>
      if !ok then Node(map[])
      else match body
        case None => Node(map[])
        case Some(m) => Node(m)
  }

  /** `localStorage.getItem('lang') || 'en'`: the stored code unless it is missing or empty. */
  function InitialLang(stored: Option<string>): (lang: string)
    ensures lang != ""
    ensures stored.Some? && stored.value != "" ==> lang == stored.value
    ensures stored.None? || stored.value == "" ==> lang == "en"
  {
    if stored.Some? && stored.value != "" then stored.value else "en"
  }

  /** Number of times `x` occurs in `s`. */
  function Occurrences(s: seq<string>, x: string): nat {
    if s == [] then 0 else (if s[0] == x then 1 else 0) + Occurrences(s[1..], x)
  }

  predicate NoDuplicates(s: seq<string>) {
    forall i, j :: 0 <= i < j < |s| ==> s[i] != s[j]
  }

  /** A log without duplicates mentions each language at most once. */
  lemma {:induction false} NoDuplicatesAtMostOnce(s: seq<string>, x: string)
    requires NoDuplicates(s)
    ensures Occurrences(s, x) <= 1
    ensures Occurrences(s, x) == 1 <==> x in s
  {
    if s != [] {
      NoDuplicatesAtMostOnce(s[1..], x);
      if s[0] == x {
        assert x !in s[1..] by {
          forall i | 0 <= i < |s[1..]| ensures s[1..][i] != x {
            assert s[1..][i] == s[i + 1];
          }
        }
      }
      assert s == [s[0]] + s[1..];
    }
  }

  /**
   * The `translations` object: bundles by language code, plus a count of the
   * fetches made and (ghost) the codes they were made for, in order.
   */
  class LocaleStore {
    var cache: map<string, Tree>
    var fetches: nat
    ghost var fetched: seq<string>

    /** Every cached bundle is an object, every fetch was for a new code and filled the cache. */
    ghost predicate Valid()
      reads this
    {
      && (forall lang :: lang in cache ==> cache[lang].Node?)
      && fetches == |fetched|
      && NoDuplicates(fetched)
      && (forall lang :: lang in cache <==> lang in fetched)
    }

    constructor ()
      ensures Valid() && cache == map[] && fetched == [] && fetches == 0
    {
      cache, fetches, fetched := map[], 0, [];
    }

    /**
     * The guarded fetch of `setLanguage`: fetch only when no truthy bundle is
     * cached for `lang`, and cache whatever comes back, failures as `{}`.
     */
    method Ensure(lang: string, fetch: string -> Response) returns (bundle: Tree)
      requires Valid()
      modifies this
      ensures Valid()
      ensures lang in cache && bundle == cache[lang]
      ensures old(lang in cache) ==>
        cache == old(cache) && fetched == old(fetched) && fetches == old(fetches)
      ensures old(lang !in cache) ==>
        && cache == old(cache)[lang := FetchTranslations(fetch(lang))]
        && fetched == old(fetched) + [lang] && fetches == old(fetches) + 1
    {
      if !(lang in cache && Truthy(Some(cache[lang]))) {
        var resp := fetch(lang);
        cache := cache[lang := FetchTranslations(resp)];
        fetches := fetches + 1;
        fetched := fetched + [lang];
      }
      bundle := cache[lang];
    }

    /** Each language has been fetched once if it is cached, and never otherwise. */
    lemma FetchedAtMostOnce(lang: string)
      requires Valid()
      ensures Occurrences(fetched, lang) == if lang in cache then 1 else 0
    {
      NoDuplicatesAtMostOnce(fetched, lang);
    }
  }

  /** The state of the i18n script once the page has loaded. */
  class Engine {
    const store: LocaleStore
    const elements: array<Element>   // the `[data-i18n]` elements, in document order
    const root: Root
    const storage: LocalStorage
    var currentLang: string
    var menuHidden: bool             // `#lang-menu` carries `hidden`

    ghost predicate Valid()
      reads this, store
    {
      store.Valid()
    }

    /** The script's start-up: an empty store and the remembered (or default) language. */
    constructor (elements: array<Element>, root: Root, storage: LocalStorage, menuHidden: bool)
      ensures Valid() && fresh(store) && store.cache == map[] && store.fetched == []
      ensures this.elements == elements && this.root == root && this.storage == storage
      ensures currentLang == InitialLang(storage.GetItem("lang"))
      ensures this.menuHidden == menuHidden
    {
      this.store := new LocaleStore();
      this.elements := elements;
      this.root := root;
      this.storage := storage;
      this.currentLang := InitialLang(storage.GetItem("lang"));
      this.menuHidden := menuHidden;
    }

    /** `translations[lang]`, absent when nothing was loaded for `lang`. */
    function Bundle(lang: string): (bundle: Option<Tree>)
      reads this, store
      ensures bundle.Some? <==> lang in store.cache
      ensures bundle.Some? ==> bundle.value == store.cache[lang]
      // with the store invariant, `!translations[lang]` is the same as "not cached"
      ensures Valid() ==> (Truthy(bundle) <==> lang in store.cache)
    {
      if lang in store.cache then Some(store.cache[lang]) else None
    }

    /** `applyTranslations(lang)`: every tagged element gets the rule, then `lang` and `dir` are set. */
    method ApplyTranslations(lang: string)
      modifies elements, root
      ensures forall i :: 0 <= i < elements.Length ==>
        elements[i] == ApplyTo(old(elements[i]), Bundle(lang))
      ensures root.lang == lang && root.dir == Direction(lang) && root.dark == old(root.dark)
    {
      var bundle := Bundle(lang);
      var i := 0;
      while i < elements.Length
        invariant 0 <= i <= elements.Length
        invariant forall j :: 0 <= j < i ==> elements[j] == ApplyTo(old(elements[j]), bundle)
        invariant forall j :: i <= j < elements.Length ==> elements[j] == old(elements[j])
        invariant root.lang == old(root.lang) && root.dir == old(root.dir) && root.dark == old(root.dark)
      {
        var el := elements[i];
        var translation := Lookup(bundle, el.key);
        elements[i] := Translate(el, translation);
        i := i + 1;
      }
      root.lang := lang;
      root.dir := Direction(lang);
    }

    /**
     * `setLanguage(lang)`, taken as one atomic step: make sure a bundle is
     * cached, apply it, persist the choice and make it current.
     */
    method SetLanguage(lang: string, fetch: string -> Response)
      requires Valid()
      modifies this, store, elements, root, storage
      ensures Valid()
      ensures currentLang == lang && menuHidden == old(menuHidden)
      ensures storage.items == old(storage.items)["lang" := lang]
      ensures lang in store.cache
      ensures old(lang in store.cache) ==>
        store.cache == old(store.cache) && store.fetched == old(store.fetched)
      ensures old(lang !in store.cache) ==>
        && store.cache == old(store.cache)[lang := FetchTranslations(fetch(lang))]
        && store.fetched == old(store.fetched) + [lang]
      ensures forall i :: 0 <= i < elements.Length ==>
        elements[i] == ApplyTo(old(elements[i]), Some(store.cache[lang]))
      ensures root.lang == lang && root.dir == Direction(lang) && root.dark == old(root.dark)
    {
      var _ := store.Ensure(lang, fetch);
      ApplyTranslations(lang);
      storage.SetItem("lang", lang);
      currentLang := lang;
    }

    /** The initial `setLanguage(currentLang)` at the end of the script. */
    method InitialLoad(fetch: string -> Response)
      requires Valid()
      modifies this, store, elements, root, storage
      ensures Valid()
      ensures currentLang == old(currentLang) && currentLang in store.cache
      ensures menuHidden == old(menuHidden)
      ensures storage.items == old(storage.items)["lang" := currentLang]
      ensures old(currentLang in store.cache) ==>
        store.cache == old(store.cache) && store.fetched == old(store.fetched)
      ensures old(currentLang !in store.cache) ==>
        && store.cache == old(store.cache)[currentLang := FetchTranslations(fetch(currentLang))]
        && store.fetched == old(store.fetched) + [currentLang]
      ensures root.lang == currentLang && root.dir == Direction(currentLang) && root.dark == old(root.dark)
      ensures forall i :: 0 <= i < elements.Length ==>
        elements[i] == ApplyTo(old(elements[i]), Some(store.cache[currentLang]))
    {
      SetLanguage(currentLang, fetch);
    }

    /**
     * A click on a language option: switch only to a language other than the
     * current one, then close the menu either way.
     */
    method SelectOption(newLang: string, fetch: string -> Response)
      requires Valid()
      modifies this, store, elements, root, storage
      ensures Valid()
      ensures menuHidden && currentLang == newLang
      ensures newLang == old(currentLang) ==>
        && store.cache == old(store.cache) && store.fetched == old(store.fetched)
        && storage.items == old(storage.items)
        && elements[..] == old(elements[..])
        && root.lang == old(root.lang) && root.dir == old(root.dir)
      ensures newLang != old(currentLang) ==>
        && storage.items == old(storage.items)["lang" := newLang]
        && (old(newLang in store.cache) ==>
              store.cache == old(store.cache) && store.fetched == old(store.fetched))
        && (old(newLang !in store.cache) ==>
              && store.cache == old(store.cache)[newLang := FetchTranslations(fetch(newLang))]
              && store.fetched == old(store.fetched) + [newLang])
        && (forall i :: 0 <= i < elements.Length ==>
              elements[i] == ApplyTo(old(elements[i]), Some(store.cache[newLang])))
        && root.lang == newLang && root.dir == Direction(newLang)
      ensures root.dark == old(root.dark)
    {
      if newLang != currentLang {
        SetLanguage(newLang, fetch);
      }
      menuHidden := true;
    }

    /** A click on the language button shows or hides the menu. */
    method ToggleMenu()
      modifies this
      ensures menuHidden == !old(menuHidden) && currentLang == old(currentLang)
    {
      menuHidden := !menuHidden;
    }

    /** A click elsewhere in the document closes an open menu, unless it was on the button. */
    method ClickOutside(onToggleButton: bool)
      modifies this
      ensures menuHidden == (old(menuHidden) || !onToggleButton)
      ensures currentLang == old(currentLang)
    {
      if !menuHidden && !onToggleButton {
        menuHidden := true;
      }
    }
  }
}
