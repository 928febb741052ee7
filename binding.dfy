/**
 * One element tagged with `data-i18n` and the three-way rule that writes a
 * translation into it (the body of the `forEach` in `applyTranslations`).
 */
module Binding {
  import opened Wrappers
  import opened Translation

  /**
   * What the rule reads and writes of an element:
   *  - `key`: the `data-i18n` attribute;
   *  - `childCount`: `el.children.length`, the number of child ELEMENTS;
   *  - `keepFlag`: truthiness of `data-i18n-keep-children` (absent or "" is false);
   *  - `lead`: the value of the first child node when that node is a text node;
   *  - `rest`: the markup after that leading text node, kept opaque;
   *  - `placeholder`: the `placeholder` attribute, when the element has one.
   */
  datatype Element = Element(
    key: string,
    childCount: nat,
    keepFlag: bool,
    lead: Option<string>,
    rest: string,
    placeholder: Option<string>)

  /** The element's inner content: its leading text followed by the rest of its markup. */
  function Content(e: Element): string {
    (if e.lead.Some? then e.lead.value else "") + e.rest
  }

  /** The keep-children branch is taken: at least one child element and the flag set. */
  predicate KeepsChildren(e: Element) {
    e.childCount > 0 && e.keepFlag
  }

  /**
   * Writes a resolved translation into an element. A falsy translation leaves
   * it alone; otherwise exactly one of the leading text node, the placeholder or
   * the whole content is replaced. The new content is treated as plain text.
   */
  function Translate(e: Element, translation: Option<Tree>): (r: Element)
    // the attributes the rule reads are never rewritten
    ensures r.key == e.key && r.keepFlag == e.keepFlag
    ensures r.placeholder.Some? == e.placeholder.Some?
    // no truthy translation: nothing changes
    ensures !Truthy(translation) ==> r == e
    // keep-children: only the leading text node, and only if there is one
    ensures Truthy(translation) && KeepsChildren(e) ==>
      && r.childCount == e.childCount && r.rest == e.rest && r.placeholder == e.placeholder
      && r.lead.Some? == e.lead.Some?
      && Content(r) == if e.lead.Some? then TextOf(translation.value) + e.rest else Content(e)
    // placeholder: only the attribute
    ensures Truthy(translation) && !KeepsChildren(e) && e.placeholder.Some? ==>
      && r.placeholder == Some(TextOf(translation.value))
      && Content(r) == Content(e) && r.childCount == e.childCount && r.lead == e.lead
    // otherwise: the whole content becomes the translation
    ensures Truthy(translation) && !KeepsChildren(e) && e.placeholder.None? ==>
      Content(r) == TextOf(translation.value) && r.childCount == 0 && r.placeholder == None
  {
    if !Truthy(translation) then e
    else
      var text := TextOf(translation.value);
      if e.childCount > 0 && e.keepFlag then
        if e.lead.Some? then e.(lead := Some(text)) else e
      else if e.placeholder.Some? then
        e.(placeholder := Some(text))
      else
        e.(lead := Some(text), rest := "", childCount := 0)
  }

  /** The element after the rule runs with the bundle of the current language. */
  function ApplyTo(e: Element, bundle: Option<Tree>): (r: Element)
    ensures r.key == e.key && r.keepFlag == e.keepFlag
    // no bundle loaded (or a falsy one): every element keeps its markup
    ensures !Truthy(bundle) ==> r == e
    // a key that walks to nothing in the bundle leaves the element alone
    ensures bundle.Some? && At(bundle.value, Split(e.key)).None? ==> r == e
  {
    Translate(e, Lookup(bundle, e.key))
  }

  /** Applying the same translation twice is the same as applying it once. */
  lemma TranslateIdempotent(e: Element, translation: Option<Tree>)
    ensures Translate(Translate(e, translation), translation) == Translate(e, translation)
  {
  }

  /**
   * The last truthy translation wins: whatever an earlier language wrote, a
   * later truthy translation leaves the element as if it had been the only one.
   */
  lemma LaterTranslationWins(e: Element, first: Option<Tree>, second: Option<Tree>)
    requires Truthy(second)
    ensures Translate(Translate(e, first), second) == Translate(e, second)
  {
  }

  /**
   * Worked example: in `{"nav": {"about": "About Me"}}`, a plain element keyed
   * `nav.about` ends with content "About Me" and one keyed `nav.missing` is untouched.
   */
  lemma NavAboutExample(lead: Option<string>, rest: string)
    ensures var bundle := Some(Node(map["nav" := Node(map["about" := Leaf("About Me")])]));
      && Content(ApplyTo(Element("nav.about", 0, false, lead, rest, None), bundle)) == "About Me"
      && ApplyTo(Element("nav.missing", 0, false, lead, rest, None), bundle)
         == Element("nav.missing", 0, false, lead, rest, None)
  {
    var inner := Node(map["about" := Leaf("About Me")]);
    var tree := Node(map["nav" := inner]);
    var about, missing := ["nav", "about"], ["nav", "missing"];
    assert NoDots(about) && NoDots(missing) by {
      assert '.' !in "nav" && '.' !in "about" && '.' !in "missing";
    }
    assert Join(about) == "nav.about";
    assert Join(missing) == "nav.missing";
    assert At(tree, about) == Some(Leaf("About Me")) by {
      assert At(inner, ["about"]) == At(Leaf("About Me"), []);
    }
    assert At(tree, missing) == None by {
      assert "missing" !in inner.children;
    }
    LookupJoin(tree, about);
    LookupJoin(tree, missing);
  }
}
