/**
 * The field extractors. The HTML parser and the CSS selector engine are
 * foreign: a document is the sequence of its elements in document order, and
 * an engine is a selector compiler together with the matching relation it
 * decides. On top of them sit the shared select-first primitive and the five
 * per-field normalisations.
 */
module Extract {
  import opened Wrappers
  import opened Text

  /** What the extractors read from an element. */
  datatype Element = Element(
    innerHtml: string,              // `inner_html()`
    text: seq<string>,              // `text()`: descendant text nodes, in document order
    attrs: map<string, string>)     // `value().attr(name)`

  /** A parsed page: every element, in document (pre-)order. */
  datatype Html = Html(elements: seq<Element>)

  /**
   * A CSS selector engine: `parse` is `Selector::parse` (`None` on a syntax
   * error) and `matches(sel, doc, i)` says whether the element at position
   * `i` of `doc` is selected by `sel`.
   */
  datatype SelectorEngine<!Sel> = SelectorEngine(
    parse: string -> Option<Sel>,
    matches: (Sel, Html, nat) -> bool)

  /** Element `i` is the first element of `doc` that the compiled `css` selects. */
  ghost predicate IsFirstMatch<Sel>(engine: SelectorEngine<Sel>, doc: Html, css: string, i: nat) {
    && engine.parse(css).Some?
    && i < |doc.elements|
    && engine.matches(engine.parse(css).value, doc, i)
    && forall j: nat :: j < i ==> !engine.matches(engine.parse(css).value, doc, j)
  }

  /** `css` does not compile, or it compiles and selects nothing in `doc`. */
  ghost predicate NoMatch<Sel>(engine: SelectorEngine<Sel>, doc: Html, css: string) {
    || engine.parse(css).None?
    || forall j: nat :: j < |doc.elements| ==> !engine.matches(engine.parse(css).value, doc, j)
  }

  /** The first position at or after `from` whose element `sel` selects. */
  function FirstMatchFrom<Sel>(engine: SelectorEngine<Sel>, doc: Html, sel: Sel, from: nat): (r: Option<nat>)
    requires from <= |doc.elements|
    ensures r.Some? ==> from <= r.value < |doc.elements| && engine.matches(sel, doc, r.value)
                        && forall j: nat :: from <= j < r.value ==> !engine.matches(sel, doc, j)
    ensures r.None? ==> forall j: nat :: from <= j < |doc.elements| ==> !engine.matches(sel, doc, j)
    decreases |doc.elements| - from
  {
    if from == |doc.elements| then None
    else if engine.matches(sel, doc, from) then Some(from)
    else FirstMatchFrom(engine, doc, sel, from + 1)
  }

  /**
   * `select_elements`: the first element the selector selects, and nothing
   * both when the selector does not compile and when it selects nothing.
   */
  function SelectFirst<Sel>(engine: SelectorEngine<Sel>, doc: Html, css: string): (r: Option<Element>)
    ensures r.None? <==> NoMatch(engine, doc, css)
    ensures forall i: nat :: IsFirstMatch(engine, doc, css, i) ==> r == Some(doc.elements[i])
  {
    match engine.parse(css)
    case None => None
    case Some(sel) =>
      match FirstMatchFrom(engine, doc, sel, 0)
      case None => None
      case Some(i) => Some(doc.elements[i])
  }

  /** A selector with a first match has exactly one. */
  lemma FirstMatchUnique<Sel>(engine: SelectorEngine<Sel>, doc: Html, css: string, i: nat, j: nat)
    requires IsFirstMatch(engine, doc, css, i) && IsFirstMatch(engine, doc, css, j)
    ensures i == j
  {
  }

  /** `get_recipe_title`: the first match's inner HTML, markup included, unchanged. */
  function GetRecipeTitle<Sel>(engine: SelectorEngine<Sel>, doc: Html, css: string): (r: Option<string>)
    ensures r.None? <==> NoMatch(engine, doc, css)
    ensures forall i: nat :: IsFirstMatch(engine, doc, css, i) ==> r == Some(doc.elements[i].innerHtml)
  {
    match SelectFirst(engine, doc, css)
    case None => None
    case Some(e) => Some(e.innerHtml)
  }

  /**
   * `get_recipe_description`: the first match's text segments joined with a
   * single space, then trimmed; never whitespace at either end.
   */
  function GetRecipeDescription<Sel>(engine: SelectorEngine<Sel>, doc: Html, css: string): (r: Option<string>)
    ensures r.None? <==> NoMatch(engine, doc, css)
    ensures forall i: nat :: IsFirstMatch(engine, doc, css, i)
                             ==> r == Some(Trim(Join(" ", doc.elements[i].text)))
    ensures r.Some? ==> IsTrimmed(r.value)
  {
    match SelectFirst(engine, doc, css)
    case None => None
    case Some(e) => Some(Trim(Join(" ", e.text)))
  }

  /**
   * An element whose text is only whitespace gives an empty description,
   * which is present (`Some("")`), not absent.
   */
  lemma BlankDescriptionIsEmpty<Sel>(engine: SelectorEngine<Sel>, doc: Html, css: string, i: nat)
    requires IsFirstMatch(engine, doc, css, i)
    requires forall k :: 0 <= k < |doc.elements[i].text| ==> AllWhitespace(doc.elements[i].text[k])
    ensures GetRecipeDescription(engine, doc, css) == Some("")
  {
    var text := doc.elements[i].text;
    assert AllWhitespace(" ") by { assert " "[0] == ' '; }
    TrimEmptyIff(Join(" ", text));
  }

  /**
   * `get_recipe_ingredients`: the first match's text segments, each trimmed,
   * the empty ones dropped, document order kept.
   */
  function GetRecipeIngredients<Sel>(engine: SelectorEngine<Sel>, doc: Html, css: string): (r: Option<seq<string>>)
    ensures r.None? <==> NoMatch(engine, doc, css)
    ensures forall i: nat :: IsFirstMatch(engine, doc, css, i)
                             ==> r == Some(CleanSegments(doc.elements[i].text))
    ensures forall i: nat :: IsFirstMatch(engine, doc, css, i) ==> |r.value| <= |doc.elements[i].text|
    ensures r.Some? ==> forall k :: 0 <= k < |r.value| ==> r.value[k] != [] && IsTrimmed(r.value[k])
  {
    match SelectFirst(engine, doc, css)
    case None => None
    case Some(e) => Some(CleanSegments(e.text))
  }

  /** `get_recipe_steps`: the same cleaning as the ingredients, on the steps selector. */
  function GetRecipeSteps<Sel>(engine: SelectorEngine<Sel>, doc: Html, css: string): (r: Option<seq<string>>)
    ensures r.None? <==> NoMatch(engine, doc, css)
    ensures forall i: nat :: IsFirstMatch(engine, doc, css, i)
                             ==> r == Some(CleanSegments(doc.elements[i].text))
    ensures forall i: nat :: IsFirstMatch(engine, doc, css, i) ==> |r.value| <= |doc.elements[i].text|
    ensures r.Some? ==> forall k :: 0 <= k < |r.value| ==> r.value[k] != [] && IsTrimmed(r.value[k])
  {
    match SelectFirst(engine, doc, css)
    case None => None
    case Some(e) => Some(CleanSegments(e.text))
  }

  /** Ingredients and steps are the same extraction: equal selectors give equal lists. */
  lemma StepsLikeIngredients<Sel>(engine: SelectorEngine<Sel>, doc: Html, css: string)
    ensures GetRecipeSteps(engine, doc, css) == GetRecipeIngredients(engine, doc, css)
  {
  }

  /**
   * `get_recipe_image`: the first match's `src` attribute, verbatim; absent
   * when nothing matches or the first match has no `src`.
   */
  function GetRecipeImage<Sel>(engine: SelectorEngine<Sel>, doc: Html, css: string): (r: Option<string>)
    ensures NoMatch(engine, doc, css) ==> r.None?
    ensures forall i: nat :: IsFirstMatch(engine, doc, css, i)
                             ==> r == if "src" in doc.elements[i].attrs
                                      then Some(doc.elements[i].attrs["src"]) else None
  {
    match SelectFirst(engine, doc, css)
    case None => None
    case Some(e) => if "src" in e.attrs then Some(e.attrs["src"]) else None
  }

  /** A selector that does not compile leaves every field absent; it is never an error. */
  lemma BadSelectorAbsent<Sel>(engine: SelectorEngine<Sel>, doc: Html, css: string)
    requires engine.parse(css).None?
    ensures GetRecipeTitle(engine, doc, css).None? && GetRecipeDescription(engine, doc, css).None?
    ensures GetRecipeIngredients(engine, doc, css).None? && GetRecipeSteps(engine, doc, css).None?
    ensures GetRecipeImage(engine, doc, css).None?
  {
  }
}
