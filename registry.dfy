/**
 * The selector registry: `load_selectors` looking a site up in the parsed
 * selectors file and reading its five selector strings, where an entry that
 * is missing or is not a string silently becomes the empty selector.
 */
module Registry {
  import opened Wrappers

  /** A TOML value, as far as the lookup distinguishes it. */
  datatype TomlValue =
    | Str(text: string)
    | Table(entries: map<string, TomlValue>)
    | OtherValue   // integers, floats, booleans, dates and arrays: never a selector

  /** The parsed selectors file: its top-level table, keyed by site. */
  type Config = map<string, TomlValue>

  datatype RecipeCssSelectors = RecipeCssSelectors(
    title: string,
    description: string,
    ingredients: string,
    steps: string,
    image: string)

  /** The five fields of a selector set, with the key each is read from. */
  datatype Field = Title | Description | Ingredients | Steps | Image {
    function Key(): string {
      match this
      case Title => "title"
      case Description => "description"
      case Ingredients => "ingredients"
      case Steps => "steps"
      case Image => "image"
    }
  }

  function SelectorOf(selectors: RecipeCssSelectors, f: Field): string {
    match f
    case Title => selectors.title
    case Description => selectors.description
    case Ingredients => selectors.ingredients
    case Steps => selectors.steps
    case Image => selectors.image
  }

  const WebsiteNotFound: string := "Website not found in selectors file"

  /** `Value::get(key)`: an entry of a table; anything that is not a table has none. */
  function Get(v: TomlValue, key: string): (r: Option<TomlValue>)
    ensures r.Some? <==> v.Table? && key in v.entries
    ensures r.Some? ==> r.value == v.entries[key]
  {
    if v.Table? && key in v.entries then Some(v.entries[key]) else None
  }

  /** `Value::as_str`. */
  function AsStr(v: TomlValue): (r: Option<string>)
    ensures r.Some? <==> v.Str?
    ensures r.Some? ==> r.value == v.text
  {
    if v.Str? then Some(v.text) else None
  }

  /** `get(key).and_then(Value::as_str).unwrap_or_default()`. */
  function ReadSelector(site: TomlValue, key: string): (r: string)
    ensures ConfiguredAs(site, key, r)
  {
    match Get(site, key)
    case None => ""
    case Some(v) => AsStr(v).GetOr("")
  }

  /**
   * What the configuration says a field's selector is: the string stored
   * under its key in the site's table, and the empty string when the site
   * entry is not a table, the key is absent or its value is not a string.
   */
  ghost predicate ConfiguredAs(site: TomlValue, key: string, selector: string) {
    if site.Table? && key in site.entries && site.entries[key].Str?
    then selector == site.entries[key].text
    else selector == ""
  }

  /**
   * `load_selectors` once the file is read and parsed: fails exactly when the
   * site is not in the file; otherwise every field carries what the
   * configuration says for its own key.
   */
  function LoadSelectors(config: Config, website: string): (r: Result<RecipeCssSelectors, string>)
    ensures r.Failure? <==> website !in config
    ensures r.Failure? ==> r.error == WebsiteNotFound
    ensures r.Success? ==> forall f: Field :: ConfiguredAs(config[website], f.Key(), SelectorOf(r.value, f))
  {
    if website !in config then
      Failure(WebsiteNotFound)
    else
      var site := config[website];
      Success(RecipeCssSelectors(
        ReadSelector(site, "title"),
        ReadSelector(site, "description"),
        ReadSelector(site, "ingredients"),
        ReadSelector(site, "steps"),
        ReadSelector(site, "image")))
  }

  /**
   * One field's entry has no say over the others: two site tables that agree
   * on a field's key give that field the same selector, whatever else differs.
   */
  lemma FieldsIndependent(c1: Config, c2: Config, website: string, f: Field)
    requires website in c1 && website in c2
    requires Get(c1[website], f.Key()) == Get(c2[website], f.Key())
    ensures SelectorOf(LoadSelectors(c1, website).value, f) == SelectorOf(LoadSelectors(c2, website).value, f)
  {
  }

  /** A site entry that is not a table yields five empty selectors, not an error. */
  lemma NonTableSiteAllEmpty(config: Config, website: string)
    requires website in config && !config[website].Table?
    ensures LoadSelectors(config, website) == Success(RecipeCssSelectors("", "", "", "", ""))
  {
  }
}
