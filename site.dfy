/**
 * The decision rules and small pieces of state behind the page's event
 * handlers in assets/main.js.
 */
module Site {
  import opened Wrappers
  import opened Dom

  // ---------------------------------------------------------------------------
  // Scroll arrows: which section to scroll to. Offsets, `scrollY` and
  // `innerHeight` are whole pixels; `x > s + h / 3` is compared as `3x > 3s + h`.

  predicate IsAbove(offset: int, scrollY: int, innerHeight: int) {
    3 * offset > 3 * scrollY + innerHeight
  }

  predicate IsBelow(offset: int, scrollY: int, innerHeight: int) {
    3 * offset < 3 * scrollY - innerHeight
  }

  /** `find`: the first section lying more than a third of a screen below the scroll position. */
  function FirstAbove(offsets: seq<int>, scrollY: int, innerHeight: int): (r: Option<nat>)
    ensures r.Some? ==>
      && r.value < |offsets| && IsAbove(offsets[r.value], scrollY, innerHeight)
      && forall j :: 0 <= j < r.value ==> !IsAbove(offsets[j], scrollY, innerHeight)
    ensures r.None? ==> forall j :: 0 <= j < |offsets| ==> !IsAbove(offsets[j], scrollY, innerHeight)
  {
    if offsets == [] then None
    else if IsAbove(offsets[0], scrollY, innerHeight) then Some(0)
    else match FirstAbove(offsets[1..], scrollY, innerHeight)
      case None => None
      case Some(k) => Some(k + 1)
  }

  /** Last element of the `filter`: the last section more than a third of a screen above. */
  function LastBelow(offsets: seq<int>, scrollY: int, innerHeight: int): (r: Option<nat>)
    ensures r.Some? ==>
      && r.value < |offsets| && IsBelow(offsets[r.value], scrollY, innerHeight)
      && forall j :: r.value < j < |offsets| ==> !IsBelow(offsets[j], scrollY, innerHeight)
    ensures r.None? ==> forall j :: 0 <= j < |offsets| ==> !IsBelow(offsets[j], scrollY, innerHeight)
  {
    if offsets == [] then None
    else if IsBelow(offsets[|offsets| - 1], scrollY, innerHeight) then Some(|offsets| - 1)
    else LastBelow(offsets[..|offsets| - 1], scrollY, innerHeight)
  }

  /**
   * `getNextSection(direction)`: the index of the section to scroll to. Down:
   * the first one far enough below, or none. Anything else counts as up: the
   * last one far enough above, falling back to the first section (none when
   * there are no sections).
   */
  function GetNextSection(direction: string, offsets: seq<int>, scrollY: int, innerHeight: int)
    : (target: Option<nat>)
    ensures target.Some? ==> target.value < |offsets|
    ensures direction == "down" ==> target == FirstAbove(offsets, scrollY, innerHeight)
    ensures direction != "down" && (exists j :: 0 <= j < |offsets| && IsBelow(offsets[j], scrollY, innerHeight)) ==>
      && target.Some? && IsBelow(offsets[target.value], scrollY, innerHeight)
      && forall j :: target.value < j < |offsets| ==> !IsBelow(offsets[j], scrollY, innerHeight)
    ensures direction != "down" && (forall j :: 0 <= j < |offsets| ==> !IsBelow(offsets[j], scrollY, innerHeight)) ==>
      target == if |offsets| > 0 then Some(0) else None
  {
    if direction == "down" then FirstAbove(offsets, scrollY, innerHeight)
    else match LastBelow(offsets, scrollY, innerHeight)
      case Some(k) => Some(k)
      case None => if |offsets| > 0 then Some(0) else None
  }

  /** Scrolling down never lands on a section at or above the scroll position. */
  lemma DownTargetIsBelowView(offsets: seq<int>, scrollY: int, innerHeight: int)
    requires innerHeight >= 0
    ensures var t := GetNextSection("down", offsets, scrollY, innerHeight);
      t.Some? ==> offsets[t.value] > scrollY
  {
  }

  // ---------------------------------------------------------------------------
  // Certificate images

  /** `sub` occurs in `s` starting at index `i`. */
  predicate OccursAt(s: string, sub: string, i: int) {
    0 <= i && i + |sub| <= |s| && s[i..i + |sub|] == sub
  }

  /** `s.includes(sub)`, searched from the left. */
  function Includes(s: string, sub: string): (found: bool)
    ensures sub == [] ==> found
    ensures |sub| > |s| ==> !found
    ensures found && sub != [] ==> sub[0] in s
    decreases |s|
  {
    if |sub| <= |s| && s[..|sub|] == sub then true
    else if s == [] then false
    else Includes(s[1..], sub)
  }

  lemma {:induction false} IncludesIffOccurs(s: string, sub: string)
    ensures Includes(s, sub) <==> exists i :: OccursAt(s, sub, i)
    decreases |s|
  {
    if |sub| <= |s| && s[..|sub|] == sub {
      assert OccursAt(s, sub, 0);
    } else if s == [] {
      assert forall i :: !OccursAt(s, sub, i);
    } else {
      IncludesIffOccurs(s[1..], sub);
      if exists i :: OccursAt(s[1..], sub, i) {
        var i :| OccursAt(s[1..], sub, i);
        assert s[1..][i..i + |sub|] == s[i + 1..i + 1 + |sub|];
        assert OccursAt(s, sub, i + 1);
      }
      if exists i :: OccursAt(s, sub, i) {
        var i :| OccursAt(s, sub, i);
        assert i != 0;
        assert s[1..][i - 1..i - 1 + |sub|] == s[i..i + |sub|];
        assert OccursAt(s[1..], sub, i - 1);
      }
    }
  }

  /**
   * The `object-fit` chosen once a certificate image loads: `contain` for tall
   * images and for the MTEC logo, `cover` otherwise.
   */
  function ObjectFit(naturalHeight: int, naturalWidth: int, src: string): (fit: string)
    ensures fit == "contain" || fit == "cover"
    ensures fit == "contain" <==>
      naturalHeight > naturalWidth || exists i :: OccursAt(src, "MTEC-Software", i)
  {
    IncludesIffOccurs(src, "MTEC-Software");
    if naturalHeight > naturalWidth || Includes(src, "MTEC-Software") then "contain" else "cover"
  }

  // ---------------------------------------------------------------------------
  // Theme

  /** The theme name stored for a dark or light page. */
  function ThemeName(dark: bool): (name: string)
    ensures name == "dark" <==> dark
    ensures name == "dark" || name == "light"
  {
    if dark then "dark" else "light"
  }

  /** The theme the toggle button switches to. */
  function Toggled(theme: string): (next: string)
    ensures next == "dark" <==> theme != "dark"
    ensures next == "dark" || next == "light"
  {
    if theme == "dark" then "light" else "dark"
  }

  /** Toggling twice comes back to a stored theme. */
  lemma ToggledTwice(theme: string)
    requires theme == "dark" || theme == "light"
    ensures Toggled(Toggled(theme)) == theme
  {
  }

  /** The theme at start-up: the saved one when it is non-empty, else the system preference. */
  function InitialTheme(saved: Option<string>, prefersDark: bool): (theme: string)
    ensures theme != ""
    ensures saved.Some? && saved.value != "" ==> theme == saved.value
    ensures saved.None? || saved.value == "" ==> theme == ThemeName(prefersDark)
  {
    if saved.Some? && saved.value != "" then saved.value else ThemeName(prefersDark)
  }

  /** The two theme icons; the page's `dark` class lives on the root element. */
  class ThemeSwitch {
    const root: Root
    const storage: LocalStorage
    var lightIconHidden: bool
    var darkIconHidden: bool

    constructor (root: Root, storage: LocalStorage, lightIconHidden: bool, darkIconHidden: bool)
      ensures this.root == root && this.storage == storage
      ensures this.lightIconHidden == lightIconHidden && this.darkIconHidden == darkIconHidden
    {
      this.root, this.storage := root, storage;
      this.lightIconHidden, this.darkIconHidden := lightIconHidden, darkIconHidden;
    }

    /** The visible icon matches the page and the stored theme names it. */
    ghost predicate Shown()
      reads this, root, storage
    {
      && lightIconHidden == root.dark && darkIconHidden == !root.dark
      && storage.GetItem("theme") == Some(ThemeName(root.dark))
    }

    /** `setTheme(theme)`: "dark" turns dark mode on; any other value turns it off. */
    method SetTheme(theme: string)
      modifies this, root, storage
      ensures root.dark <==> theme == "dark"
      ensures Shown()
      ensures storage.items == old(storage.items)["theme" := ThemeName(theme == "dark")]
      ensures root.lang == old(root.lang) && root.dir == old(root.dir)
    {
      if theme == "dark" {
        root.dark := true;
        lightIconHidden := true;
        darkIconHidden := false;
        storage.SetItem("theme", "dark");
      } else {
        root.dark := false;
        lightIconHidden := false;
        darkIconHidden := true;
        storage.SetItem("theme", "light");
      }
    }

    /** Start-up: apply the saved theme, or the system preference when none is saved. */
    method InitTheme(prefersDark: bool)
      modifies this, root, storage
      ensures var saved := old(storage.GetItem("theme"));
        root.dark <==> if saved.Some? && saved.value != "" then saved.value == "dark" else prefersDark
      ensures Shown()
      ensures storage.items == old(storage.items)["theme" := ThemeName(root.dark)]
      ensures root.lang == old(root.lang) && root.dir == old(root.dir)
    {
      SetTheme(InitialTheme(storage.GetItem("theme"), prefersDark));
    }

    /** The toggle button: read the current theme off the page and switch to the other one. */
    method Toggle()
      modifies this, root, storage
      ensures root.dark == !old(root.dark)
      ensures Shown()
      ensures storage.items == old(storage.items)["theme" := ThemeName(!old(root.dark))]
      ensures root.lang == old(root.lang) && root.dir == old(root.dir)
    {
      var current := ThemeName(root.dark);
      SetTheme(Toggled(current));
    }
  }

  // ---------------------------------------------------------------------------
  // Header auto-hide on narrow screens

  class Header {
    const height: int       // `header.offsetHeight`, read once
    var lastScrollY: int
    var hidden: bool         // transform is `translateY(-100%)`

    constructor (height: int, scrollY: int)
      ensures this.height == height && lastScrollY == scrollY && !hidden
    {
      this.height := height;
      lastScrollY := scrollY;
      hidden := false;
    }

    /**
     * The scroll handler: below 768 pixels of width, hide the header exactly
     * when scrolling down past it, and remember the position; wider screens
     * change nothing.
     */
    method OnScroll(innerWidth: int, scrollY: int)
      modifies this
      ensures innerWidth >= 768 ==> lastScrollY == old(lastScrollY) && hidden == old(hidden)
      ensures innerWidth < 768 ==>
        && lastScrollY == scrollY
        && (hidden <==> scrollY > old(lastScrollY) && scrollY > height)
    {
      if innerWidth < 768 {
        if scrollY > lastScrollY && scrollY > height {
          hidden := true;
        } else {
          hidden := false;
        }
        lastScrollY := scrollY;
      }
    }
  }

  // ---------------------------------------------------------------------------
  // "Show more" projects

  /** The button text that describes what a click will do next. */
  function ShowMoreLabel(listHidden: bool): (text: string)
    ensures text == "Show More" <==> listHidden
    ensures text == "Show More" || text == "Show Less"
  {
    if listHidden then "Show More" else "Show Less"
  }

  class ShowMore {
    var listHidden: bool     // `#more-projects` carries `hidden`
    var buttonText: string   // the button's text

    constructor (listHidden: bool, buttonText: string)
      ensures this.listHidden == listHidden && this.buttonText == buttonText
    {
      this.listHidden, this.buttonText := listHidden, buttonText;
    }

    /** A click flips the list and relabels the button to match the new state. */
    method Click()
      modifies this
      ensures listHidden == !old(listHidden)
      ensures buttonText == (if old(listHidden) then "Show Less" else "Show More")
      ensures buttonText == ShowMoreLabel(listHidden)
    {
      var isHidden := listHidden;
      listHidden := !listHidden;
      if isHidden {
        buttonText := "Show Less";
      } else {
        buttonText := "Show More";
      }
    }
  }

  // ---------------------------------------------------------------------------
  // Active nav link

  /** A `.nav-link`: its `href` attribute (if any) and whether it carries `nav-active`. */
  datatype NavLink = NavLink(href: Option<string>, active: bool)

  /** An observed section: its `id` and whether it is intersecting the middle band. */
  datatype Entry = Entry(id: string, intersecting: bool)

  /** Every link with its `nav-active` class set exactly when it points at `#id`. */
  function Highlighted(links: seq<NavLink>, id: string): (r: seq<NavLink>)
    ensures |r| == |links|
    ensures forall i :: 0 <= i < |r| ==>
      r[i].href == links[i].href && (r[i].active <==> links[i].href == Some("#" + id))
  {
    seq(|links|, i requires 0 <= i < |links| => links[i].(active := links[i].href == Some("#" + id)))
  }

  /** The links after the observer callback has run over `entries` in order. */
  function NavAfter(links: seq<NavLink>, entries: seq<Entry>): (r: seq<NavLink>)
    // the callback never adds, removes or re-targets a link
    ensures |r| == |links|
    ensures forall i :: 0 <= i < |r| ==> r[i].href == links[i].href
    // with no entry intersecting, nothing changes
    ensures (forall k :: 0 <= k < |entries| ==> !entries[k].intersecting) ==> r == links
    decreases |entries|
  {
    if entries == [] then links
    else
      var before := NavAfter(links, entries[..|entries| - 1]);
      var last := entries[|entries| - 1];
      if last.intersecting then Highlighted(before, last.id) else before
  }

  /** The id of the last intersecting entry, if any. */
  function LastIntersecting(entries: seq<Entry>): Option<string>
    decreases |entries|
  {
    if entries == [] then None
    else if entries[|entries| - 1].intersecting then Some(entries[|entries| - 1].id)
    else LastIntersecting(entries[..|entries| - 1])
  }

  /**
   * After a callback, the links that carry `nav-active` are exactly those that
   * point at the last intersecting section; with none intersecting nothing changes.
   */
  lemma {:induction false} NavAfterLastWins(links: seq<NavLink>, entries: seq<Entry>)
    ensures NavAfter(links, entries) ==
      match LastIntersecting(entries)
      case None => links
      case Some(id) => Highlighted(links, id)
    decreases |entries|
  {
    if entries != [] {
      var prefix := entries[..|entries| - 1];
      NavAfterLastWins(links, prefix);
      var last := entries[|entries| - 1];
      if last.intersecting {
        match LastIntersecting(prefix)
        case None =>
        case Some(id) =>
          var once := Highlighted(links, id);
          assert Highlighted(once, last.id) == Highlighted(links, last.id);
      }
    }
  }

  /** Sets `nav-active` on exactly the links that point at `#id`. */
  method HighlightNav(links: array<NavLink>, id: string)
    modifies links
    ensures links[..] == Highlighted(old(links[..]), id)
  {
    var i := 0;
    while i < links.Length
      invariant 0 <= i <= links.Length
      invariant forall j :: 0 <= j < i ==>
        links[j] == old(links[j]).(active := old(links[j]).href == Some("#" + id))
      invariant forall j :: i <= j < links.Length ==> links[j] == old(links[j])
    {
      links[i] := links[i].(active := links[i].href == Some("#" + id));
      i := i + 1;
    }
  }

  /** The navigation observer's callback over one batch of entries. */
  method OnNavEntries(links: array<NavLink>, entries: seq<Entry>)
    modifies links
    ensures links[..] == NavAfter(old(links[..]), entries)
    ensures LastIntersecting(entries).None? ==> links[..] == old(links[..])
    ensures forall id :: LastIntersecting(entries) == Some(id) ==>
      forall i :: 0 <= i < links.Length ==> (links[i].active <==> links[i].href == Some("#" + id))
  {
    var k := 0;
    while k < |entries|
      invariant 0 <= k <= |entries|
      invariant links[..] == NavAfter(old(links[..]), entries[..k])
    {
      assert entries[..k + 1][..k] == entries[..k];
      if entries[k].intersecting {
        HighlightNav(links, entries[k].id);
      }
      k := k + 1;
    }
    assert entries[..k] == entries;
    NavAfterLastWins(old(links[..]), entries);
  }

  // ---------------------------------------------------------------------------
  // Mobile menu and image preview, which share the body's scroll lock

  class MobileMenu {
    const body: Body
    var offscreen: bool      // `#mobileNav` carries `translate-x-full`
    var overlayHidden: bool  // `#sidebar-overlay` carries `hidden`

    constructor (body: Body, offscreen: bool, overlayHidden: bool)
      ensures this.body == body && this.offscreen == offscreen && this.overlayHidden == overlayHidden
    {
      this.body, this.offscreen, this.overlayHidden := body, offscreen, overlayHidden;
    }

    /** `openMenu`: slide the panel in, show the overlay, lock page scrolling. */
    method Open()
      modifies this, body
      ensures !offscreen && !overlayHidden && body.overflow == "hidden"
    {
      offscreen := false;
      overlayHidden := false;
      body.overflow := "hidden";
    }

    /** `closeMenu`: slide the panel out, hide the overlay, release the scroll lock. */
    method Close()
      modifies this, body
      ensures offscreen && overlayHidden && body.overflow == ""
    {
      offscreen := true;
      overlayHidden := true;
      body.overflow := "";
    }
  }

  class ImageModal {
    const body: Body
    var hidden: bool
    var src: string

    constructor (body: Body, hidden: bool, src: string)
      ensures this.body == body && this.hidden == hidden && this.src == src
    {
      this.body, this.hidden, this.src := body, hidden, src;
    }

    /** `openImageModal(src)`: show the image and lock page scrolling. */
    method Open(src: string)
      modifies this, body
      ensures !hidden && this.src == src && body.overflow == "hidden"
    {
      this.src := src;
      hidden := false;
      body.overflow := "hidden";
    }

    /** A preview button opens the modal only when it contains a preview image. */
    method PreviewClick(image: Option<string>)
      modifies this, body
      ensures image.None? ==> hidden == old(hidden) && src == old(src) && body.overflow == old(body.overflow)
      ensures image.Some? ==> !hidden && src == image.value && body.overflow == "hidden"
    {
      if image.Some? {
        Open(image.value);
      }
    }

    /** Any click on the modal closes it and releases the scroll lock. */
    method Close()
      modifies this, body
      ensures hidden && src == old(src) && body.overflow == ""
    {
      hidden := true;
      body.overflow := "";
    }
  }

  // ---------------------------------------------------------------------------
  // The global `updateHtmlLang` hook

  /** Sets `lang` and `dir` on the root element; a missing or empty code changes nothing. */
  method UpdateHtmlLang(root: Root, code: Option<string>)
    modifies root
    ensures code.None? || code.value == "" ==>
      root.lang == old(root.lang) && root.dir == old(root.dir)
    ensures code.Some? && code.value != "" ==>
      root.lang == code.value && root.dir == Direction(code.value)
    ensures root.dark == old(root.dark)
  {
    if code.None? || code.value == "" {
      return;
    }
    root.lang := code.value;
    root.dir := Direction(code.value);
  }
}
