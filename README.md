# Portfolio front end: language switcher and page handlers

This project models the client-side behaviour of a static portfolio site in
Dafny. Its main part is the run-time translation engine of `assets/i18n.js`:

- a **locale store** that fetches each language's JSON bundle at most once and caches failures as an empty bundle;
- **key resolution**, which splits a dot-separated key and folds it over the bundle;
- the **three-way substitution rule**, which writes a translation into each element tagged `data-i18n`: the leading text node, the placeholder, or the whole content;
- the **direction rule**: `lang` is set, and `dir` is `rtl` exactly for `ar`;
- the **persisted preference** and the current language;
- the language menu.

The second part covers the decision rules and small pieces of state behind the
event handlers of `assets/main.js`:

- section navigation with the scroll arrows;
- the certificate image `object-fit` choice;
- the dark/light theme;
- the auto-hiding header on narrow screens;
- the show-more button;
- active nav-link highlighting;
- the mobile menu and the image preview, which share the body's scroll lock;
- the global `updateHtmlLang` hook.

Files:

- `wrappers.dfy`: `Option`, used for null and undefined.
- `dom.dfy`: the browser state both scripts share.
  - the root element (`lang`, `dir`, the `dark` class);
  - the body's `overflow` style;
  - `localStorage` as a map field;
  - the direction rule.
- `translation.dfy`: the bundle tree, `split('.')`, the resolution fold and a reference tree walk it is proved against.
- `binding.dfy`: one tagged element and the substitution rule.
- `i18n.dfy`: the fetch result, the `LocaleStore` class and the `Engine` class. The engine works over an `array` of elements.
- `site.dfy`: the handlers of `assets/main.js`.

The network is an oracle parameter `fetch: string -> Response`. `setLanguage` is
one atomic step.

Where the model has to pick a reading of JavaScript, it follows the code as
written:

- The fold compares with the *string* `'undefined'`. So absence is really detected by truthiness, and a bundle entry whose text is exactly `"undefined"` reads as absent.
- A key that resolves to a sub-bundle writes `"[object Object]"`, which is what the DOM receives.
- A key that resolves to an empty string leaves the element alone, because the empty string is falsy.

## Model

| member | source | states |
|---|---|---|
| `Translation.Split` | assets/i18n.js:27 | `key.split('.')` always yields at least one piece, and no piece contains a dot |
| `Translation.SplitJoin` | assets/i18n.js:27 | splitting loses nothing: joining the pieces with dots gives the key back |
| `Translation.JoinSplit` | assets/i18n.js:27 | dot-free pieces joined with dots split back into exactly those pieces |
| `Translation.Step` | assets/i18n.js:27 | one fold step yields a value exactly when the current value is a truthy mapping that has the segment and the child is not the string "undefined"; that value is the child |
| `Translation.Resolve` | assets/i18n.js:27 | the fold over no segments is the start value; a falsy start value gives absent for any non-empty key; a value reached after at least one step is never the string "undefined" |
| `Translation.AbsentStaysAbsent` | assets/i18n.js:27 | once the fold holds null or undefined, it stays absent for every remaining segment |
| `Translation.ResolveAppend` | assets/i18n.js:27 | resolution is a left fold: resolving `a + b` is resolving `a`, then `b` from the result |
| `Translation.OnceFalsyAlwaysAbsent` | assets/i18n.js:27 | a falsy intermediate value makes the final result absent, whatever segments follow |
| `Translation.ResolveIsAt` | assets/i18n.js:27 | the fold equals walking the tree down the path, except that a non-empty path ending on the string "undefined" is absent |
| `Translation.Lookup` | assets/i18n.js:26-27 | with no bundle (or a falsy one) every key is absent; with a bundle, the key finds what walking its dot-separated pieces down the tree reaches, except that the string "undefined" reads as absent |
| `Translation.LookupJoin` | assets/i18n.js:26-27 | the key `a.b.c` finds exactly what the path `[a, b, c]` reaches in the bundle |
| `Binding.Translate` | assets/i18n.js:29-42 | covers all branches of the rule. A falsy translation leaves the element unchanged. With a child element and the keep flag, only an existing leading text node changes, nested markup and placeholder are kept, and there is no fallback. Otherwise a placeholder attribute alone takes the text. Otherwise the whole content becomes the text. The key and flags never change |
| `Binding.ApplyTo` | assets/i18n.js:26-29 | an element keeps its key and flag; with no bundle loaded for the language, or a key whose path reaches nothing, the element is left exactly as it was |
| `Binding.TranslateIdempotent` | assets/i18n.js:29-42 | applying the same translation twice gives the same element as applying it once |
| `Binding.LaterTranslationWins` | assets/i18n.js:29-42 | after any earlier translation, a later truthy one leaves the element as if it were the only one |
| `Binding.NavAboutExample` | assets/i18n.js:26-41 | with bundle `{"nav": {"about": "About Me"}}`, key `nav.about` gives content "About Me" and key `nav.missing` leaves the element unchanged |
| `Dom.Direction` | assets/i18n.js:47 | `dir` is `rtl` exactly when the code is `ar`, and `ltr` otherwise |
| `I18n.FetchTranslations` | assets/i18n.js:10-21 | the result is always a mapping. A network error, a non-ok status or a body that does not parse each give `{}`. Otherwise the result is the parsed object |
| `I18n.InitialLang` | assets/i18n.js:5 | the start-up language is the stored code when present and non-empty, else `en`; it is never empty |
| `I18n.NoDuplicatesAtMostOnce` | assets/i18n.js:53-55 | a fetch log without repeats mentions each language at most once, and exactly once when it appears |
| `I18n.LocaleStore.constructor` | assets/i18n.js:8 | `translations` starts as an empty object: nothing cached, nothing fetched |
| `I18n.LocaleStore.Ensure` | assets/i18n.js:53-55 | fetches only when `lang` is not cached, then caches the fetch result, failures included. A cached language causes no fetch and no change. The store invariant is kept: every cached bundle is a mapping, and every fetch was for a new code and filled the cache |
| `I18n.LocaleStore.FetchedAtMostOnce` | assets/i18n.js:53-55 | under the store invariant, a language has been fetched exactly once if it is cached and never otherwise |
| `I18n.Engine.constructor` | assets/i18n.js:5-8 | the store starts empty, and `currentLang` is the stored preference or `en` |
| `I18n.Engine.Bundle` | assets/i18n.js:27 | `translations[lang]` is present exactly when `lang` is cached and is then the cached bundle; under the store invariant it is truthy exactly when cached, so `!translations[lang]` means "not cached" |
| `I18n.Engine.ApplyTranslations` | assets/i18n.js:23-48 | every tagged element becomes `ApplyTo` of its old state under `translations[lang]`. Afterwards the root's `lang` is `lang` and `dir` follows the direction rule, whether or not any element changed |
| `I18n.Engine.SetLanguage` | assets/i18n.js:50-61 | fetches at most once for a new language and never for a cached one. It applies the cached bundle to every element and sets `lang`/`dir`. The stored `lang` preference and `currentLang` both become `lang`, and other stored keys are unchanged |
| `I18n.Engine.InitialLoad` | assets/i18n.js:88 | the first `setLanguage` runs with the start-up language: it fetches that language only when not yet cached (and then caches the fetch result, failures included), applies the cached bundle to every element, sets `lang`/`dir`, persists the code and leaves the theme class and the menu alone |
| `I18n.Engine.SelectOption` | assets/i18n.js:70-78 | selecting the current language changes nothing: no fetch, no cache change, no storage write, no element change, no change to `lang`/`dir`. Another language goes through `setLanguage`: a fetch only when it is not cached, the cached bundle applied to every element, `lang`/`dir` set and the code persisted. The menu is hidden and the theme class kept either way |
| `I18n.Engine.ToggleMenu` | assets/i18n.js:64-67 | the language button flips the menu's visibility |
| `I18n.Engine.ClickOutside` | assets/i18n.js:81-85 | a click away from the button hides an open menu; a hidden menu stays hidden |
| `Site.FirstAbove` | assets/main.js:133 | the first section in document order with `offsetTop > scrollY + innerHeight/3`, or none when there is no such section |
| `Site.LastBelow` | assets/main.js:135-136 | the last section with `offsetTop < scrollY - innerHeight/3`, or none when there is no such section |
| `Site.GetNextSection` | assets/main.js:128-139 | "down" gives the first section far enough below, or none. Any other direction gives the last section far enough above. With no such section it falls back to the first section, or none when there are no sections |
| `Site.DownTargetIsBelowView` | assets/main.js:133 | the "down" target always lies below the current scroll position |
| `Site.Includes` | assets/main.js:80 | `includes` always finds the empty string, never finds a string longer than the source, and when it finds a non-empty string the source contains that string's first character |
| `Site.IncludesIffOccurs` | assets/main.js:80 | the left-to-right `includes` search holds exactly when the substring occurs at some index |
| `Site.ObjectFit` | assets/main.js:76-85 | `contain` exactly when the image is taller than wide or its source contains `MTEC-Software`, else `cover` |
| `Site.ThemeName` | assets/main.js:176 | the theme read off the page is "dark" exactly when the root has the `dark` class, else "light" |
| `Site.Toggled` | assets/main.js:177 | the toggle's target is "dark" exactly when the current theme is not "dark", and is always "dark" or "light" |
| `Site.ToggledTwice` | assets/main.js:175-178 | toggling twice returns to the theme you started from |
| `Site.InitialTheme` | assets/main.js:171 | the saved theme when non-empty, otherwise the system preference |
| `Site.ThemeSwitch.SetTheme` | assets/main.js:156-168 | "dark" adds `dark`, hides the light icon, shows the dark icon and stores "dark". Any other value does the opposite and stores "light". Nothing else in storage or on the root changes |
| `Site.ThemeSwitch.InitTheme` | assets/main.js:171-172 | at start-up the page is dark exactly when the saved theme is "dark", or, with nothing saved, when the system prefers dark; the icons match, the resulting theme name is written back to storage with other keys unchanged, and the root's `lang`/`dir` are untouched |
| `Site.ThemeSwitch.Toggle` | assets/main.js:175-178 | the `dark` class flips; the icons and the stored theme follow it |
| `Site.Header.constructor` | assets/main.js:181-183 | `lastScrollY` starts at the scroll position and the header height is read once |
| `Site.Header.OnScroll` | assets/main.js:185-199 | at a width of 768 or more nothing changes, `lastScrollY` included. Below 768 the header is hidden exactly when the position passed both `lastScrollY` and the header height, and `lastScrollY` becomes the position |
| `Site.ShowMoreLabel` | assets/main.js:227-231 | the label reads "Show More" exactly when the list is hidden |
| `Site.ShowMore.Click` | assets/main.js:222-232 | the list's `hidden` flips. The text becomes "Show Less" if the list was hidden and "Show More" otherwise, so it always matches the new state |
| `Site.Highlighted` | assets/main.js:64-66 | exactly the links whose `href` is `#id` carry `nav-active`, and hrefs are unchanged |
| `Site.NavAfter` | assets/main.js:60-68 | the observer callback never adds, removes or re-targets a link, and a batch with no intersecting entry changes nothing |
| `Site.NavAfterLastWins` | assets/main.js:60-68 | after a batch of entries, the active links are exactly those that point at the last intersecting section; with none intersecting, nothing changes |
| `Site.HighlightNav` | assets/main.js:64-66 | the loop over the links leaves them as `Highlighted` says |
| `Site.OnNavEntries` | assets/main.js:60-68 | the observer callback leaves `nav-active` on exactly the links that point at the last intersecting entry |
| `Site.MobileMenu.Open` | assets/main.js:34-38 | the panel slides in, the overlay shows and page scrolling is locked |
| `Site.MobileMenu.Close` | assets/main.js:40-44 | the panel slides out, the overlay hides and the scroll lock is released |
| `Site.ImageModal.Open` | assets/main.js:101-105 | the modal shows the given image and locks scrolling |
| `Site.ImageModal.PreviewClick` | assets/main.js:108-114 | a preview button without an image changes nothing; one with an image opens the modal on that image |
| `Site.ImageModal.Close` | assets/main.js:117-120 | any click on the modal hides it and releases the scroll lock |
| `Site.UpdateHtmlLang` | assets/main.js:241-245 | a missing or empty code changes nothing. Otherwise `lang` is the code and `dir` is `rtl` exactly for `ar`. The theme class is untouched |

## Left out

- `sw.js`, the service worker, is not part of this model. It is a thin wrapper over the browser's Cache API and `fetch`. Its all-or-nothing install is the browser's behaviour, not this code's.
- Concurrency: `setLanguage` awaits a fetch, so two calls can interleave. The model runs each call as one atomic step, so it does not capture the race between two in-flight fetches.
- The loading indicator (`is-loading` added and removed around `setLanguage`) is left out. It is pure styling and is always cleared by the end of the atomic step.
- Event-listener registration is left out, and so is the guard that registers the menu listeners only when all four elements exist. The handlers are modelled as methods that the events would call.
- The scroll-reveal observer (`in-view` toggling), the IntersectionObserver setup, `scrollIntoView`, the contact form's fixed messages and the `onload`/`complete` wiring of the certificate images are all left out. Each only forwards to the browser.
- `matchMedia` becomes the boolean parameter `prefersDark`. `innerWidth`, `scrollY`, `innerHeight`, section offsets and image sizes become integer parameters. Fractional pixel values are not modelled, and the third of a screen height is compared as `3*offset` against `3*scrollY ± innerHeight`, which is exact for integers.
- The HTML meaning of `innerHTML` is not modelled. Content is an opaque string. A full-content write is treated as plain text: one leading text node, no child elements. A translation that contains markup would, in the browser, also create child elements.
- Properties every JavaScript object inherits (such as `constructor` or `toString`) are not modelled. The browser would find them both in a bundle and in the `translations` cache.
- Translation.Step: JavaScript would index a leaf string with a leftover segment: `"0"` gives a character and `"length"` gives a number. The model fixes that outcome as absent, so such a key leaves its element unchanged.
- The `console.error(error)` call on a failed fetch (assets/i18n.js:18) is left out. It only writes to the browser console; the returned `{}` is modelled.
- Bundle values that are neither a string nor an object are not modelled: numbers, booleans, a nested `null` or an array. In the browser `{"n": 5}` would write "5", and `{"nav": null}` would make `nav.x` absent. The bundle tree only has strings and mappings.
- Element nesting is not modelled. `Engine.elements` holds independent records. So an element that a parent's full-content write (assets/i18n.js:40) removed from the page is still updated in the model, and a keep-children parent's `rest` does not show a translated tagged child.
- I18n.FetchTranslations: a locale file whose top-level JSON is not an object (an array, a string, `null`) is not modelled. The parsed body is always a mapping, so every cached bundle is truthy and `!translations[lang]` is the same as "not cached".
- I18n.Engine.SelectOption: the language comes from the option's `data-lang` attribute and is taken to be present. A missing attribute would pass `null` to `setLanguage`.
- Re-selecting a language does not in general restore the content of its first application. Take the sequence `ar`, `en`, `ar`: an element whose key resolves in `en` but not in `ar` keeps the English text. What does hold is stated by `Binding.LaterTranslationWins` and `Binding.TranslateIdempotent`.
