/**
 * Recipe assembly: `extract_recipe` runs the five extractors with the
 * site's selectors and attaches the source URL; the output file name and
 * path are derived from the title as `save_recipe_to_file` does.
 */
module Assembly {
  import opened Wrappers
  import opened Text
  import opened Registry
  import opened Extract

  datatype Recipe = Recipe(
    title: Option<string>,
    description: Option<string>,
    ingredients: Option<seq<string>>,
    steps: Option<seq<string>>,
    imageLink: Option<string>,
    sourceUrl: string)

  /** The normal forms the extractors guarantee, read off a finished record. */
  predicate WellFormed(r: Recipe) {
    && (r.description.Some? ==> IsTrimmed(r.description.value))
    && (r.ingredients.Some? ==> forall k :: 0 <= k < |r.ingredients.value| ==>
          r.ingredients.value[k] != [] && IsTrimmed(r.ingredients.value[k]))
    && (r.steps.Some? ==> forall k :: 0 <= k < |r.steps.value| ==>
          r.steps.value[k] != [] && IsTrimmed(r.steps.value[k]))
  }

  /**
   * `extract_recipe`: every field is its own extractor's result on its own
   * selector and the source URL is kept verbatim; so the text fields are in
   * normal form, each text field is absent exactly when its own selector
   * fails to compile or selects nothing, and the image link is absent when
   * its selector selects nothing.
   */
  function ExtractRecipe<Sel>(engine: SelectorEngine<Sel>, doc: Html, selectors: RecipeCssSelectors,
                              sourceUrl: string): (r: Recipe)
    ensures r.title == GetRecipeTitle(engine, doc, selectors.title)
    ensures r.description == GetRecipeDescription(engine, doc, selectors.description)
    ensures r.ingredients == GetRecipeIngredients(engine, doc, selectors.ingredients)
    ensures r.steps == GetRecipeSteps(engine, doc, selectors.steps)
    ensures r.imageLink == GetRecipeImage(engine, doc, selectors.image)
    ensures r.sourceUrl == sourceUrl
    ensures WellFormed(r)
    ensures r.title.None? <==> NoMatch(engine, doc, selectors.title)
    ensures r.description.None? <==> NoMatch(engine, doc, selectors.description)
    ensures r.ingredients.None? <==> NoMatch(engine, doc, selectors.ingredients)
    ensures r.steps.None? <==> NoMatch(engine, doc, selectors.steps)
    ensures NoMatch(engine, doc, selectors.image) ==> r.imageLink.None?
  {
    Recipe(
      GetRecipeTitle(engine, doc, selectors.title),
      GetRecipeDescription(engine, doc, selectors.description),
      GetRecipeIngredients(engine, doc, selectors.ingredients),
      GetRecipeSteps(engine, doc, selectors.steps),
      GetRecipeImage(engine, doc, selectors.image),
      sourceUrl)
  }

  /**
   * Each field depends only on the document and that field's own selector:
   * two selector sets that agree on a field give that field the same value.
   */
  lemma FieldsDependOnOwnSelector<Sel>(engine: SelectorEngine<Sel>, doc: Html,
                                       s1: RecipeCssSelectors, s2: RecipeCssSelectors, u1: string, u2: string)
    ensures var r1, r2 := ExtractRecipe(engine, doc, s1, u1), ExtractRecipe(engine, doc, s2, u2);
            && (s1.title == s2.title ==> r1.title == r2.title)
            && (s1.description == s2.description ==> r1.description == r2.description)
            && (s1.ingredients == s2.ingredients ==> r1.ingredients == r2.ingredients)
            && (s1.steps == s2.steps ==> r1.steps == r2.steps)
            && (s1.image == s2.image ==> r1.imageLink == r2.imageLink)
  {
  }

  /**
   * A site whose table has no `steps` entry still loads; with an engine that
   * rejects the empty selector, its steps come out absent while the other
   * four fields are extracted from their own selectors as usual.
   */
  lemma MissingStepsEntry<Sel>(engine: SelectorEngine<Sel>, doc: Html, config: Config, website: string,
                               url: string)
    requires website in config && config[website].Table?
    requires "steps" !in config[website].entries
    requires engine.parse("").None?
    ensures LoadSelectors(config, website).Success?
    ensures var sel := LoadSelectors(config, website).value;
            var r := ExtractRecipe(engine, doc, sel, url);
            && r.steps.None?
            && r.title == GetRecipeTitle(engine, doc, sel.title)
            && r.description == GetRecipeDescription(engine, doc, sel.description)
            && r.ingredients == GetRecipeIngredients(engine, doc, sel.ingredients)
            && r.imageLink == GetRecipeImage(engine, doc, sel.image)
  {
    var sel := LoadSelectors(config, website).value;
    assert ConfiguredAs(config[website], Steps.Key(), SelectorOf(sel, Steps));
  }

  lemma TomatoTrimmed()
    ensures Trim("200g tomato") == "200g tomato"
  {
    assert IsTrimmed("200g tomato") by {
      assert "200g tomato"[0] == '2' && "200g tomato"[10] == 'o';
    }
    TrimTrimmed("200g tomato");
  }

  lemma OnionTrimmed()
    ensures Trim("1 onion\n") == "1 onion"
  {
    assert "1 onion\n" == "" + "1 onion" + "\n";
    assert IsTrimmed("1 onion") by {
      assert |"1 onion"| == 7 && "1 onion"[0] == '1' && "1 onion"[6] == 'n';
    }
    assert AllWhitespace("\n") && AllWhitespace("");
    TrimUnique("1 onion\n", "", "1 onion", "\n");
  }

  /** Segments `"200g tomato"`, `"\n\n"`, `"1 onion\n"` clean to `["200g tomato", "1 onion"]`. */
  lemma IngredientSegmentsExample()
    ensures CleanSegments(["200g tomato", "\n\n", "1 onion\n"]) == ["200g tomato", "1 onion"]
  {
    TomatoTrimmed();
    OnionTrimmed();
    assert AllWhitespace("\n\n");
    assert !AllWhitespace("200g tomato") by { assert "200g tomato"[0] == '2'; }
    assert !AllWhitespace("1 onion\n") by { assert "1 onion\n"[0] == '1'; }
    assert ["200g tomato", "\n\n", "1 onion\n"] == ["200g tomato"] + (["\n\n"] + ["1 onion\n"]);
    CleanSegmentsAppend(["200g tomato"], ["\n\n"] + ["1 onion\n"]);
    CleanSegmentsAppend(["\n\n"], ["1 onion\n"]);
    CleanSegmentsSingle("200g tomato");
    CleanSegmentsSingle("\n\n");
    CleanSegmentsSingle("1 onion\n");
  }

  const FallbackFileName: string := "recipe.json"

  /**
   * The file name `save_recipe_to_file` writes to: `recipe_<title>.json`
   * with the title unescaped, or `recipe.json` without a title.
   */
  function FileName(title: Option<string>): (r: string)
    ensures title.None? ==> r == FallbackFileName
    ensures title.Some? ==> && |r| == |title.value| + 12
                            && r[..7] == "recipe_" && r[|r| - 5..] == ".json"
                            && r[7..|r| - 5] == title.value
  {
    match title
    case None => FallbackFileName
    case Some(t) => "recipe_" + t + ".json"
  }

  /** No two recipes share a file name unless their titles are equal (both absent included). */
  lemma FileNameInjective(t1: Option<string>, t2: Option<string>)
    requires FileName(t1) == FileName(t2)
    ensures t1 == t2
  {
  }

  /** `format!("{}/{}", output_folder, file_name)`. */
  function FilePath(folder: string, fileName: string): (r: string)
    ensures |r| == |folder| + 1 + |fileName|
    ensures r[..|folder|] == folder && r[|folder|] == '/' && r[|folder| + 1..] == fileName
  {
    folder + "/" + fileName
  }

  /**
   * The title is not sanitised: a `/` in it puts a further separator after
   * the output folder, so the file does not land directly in that folder.
   */
  lemma SlashInTitleEscapesFolder(folder: string, title: string)
    requires '/' in title
    ensures exists k :: |folder| < k < |FilePath(folder, FileName(Some(title)))|
                        && FilePath(folder, FileName(Some(title)))[k] == '/'
  {
    var i :| 0 <= i < |title| && title[i] == '/';
    var path := FilePath(folder, FileName(Some(title)));
    assert path[|folder| + 8 + i] == FileName(Some(title))[7 + i] == '/';
  }
}
