# FoodScraper extraction core in Dafny

This project models the pure core of FoodScraper, a command-line tool that scrapes a recipe page
from one of two supported sites. It fetches the page, picks the site's five CSS selectors from a
TOML file, extracts title, description, ingredients, steps and image link, and writes them as
JSON. The model covers every step between the raw URL string and the record plus its file name:

- the supported-URL check and the site-key derivation (`site.dfy`);
- the selector lookup with its empty-string defaulting (`registry.dfy`);
- the shared select-first primitive and the five field extractors (`extract.dfy`);
- recipe assembly and the output file name and path (`assembly.dfy`).

They rest on the string rules in `text.dfy`: Rust's `str::trim` over the Unicode White_Space
characters, `join`, `str::contains`, the first item of `split('.')`, and the trim-then-drop-empty
cleaning of text segments. `wrappers.dfy` holds `Option` and `Result`.

The foreign crates are parameters. `Url::parse` is a function `string -> Option<Url>`, and a
`Url` keeps only its scheme and optional host. A CSS engine is a selector compiler
(`string -> Option<Sel>`) plus the matching relation it decides. A parsed page is the sequence
of its elements in document order. Each element has its inner HTML, its text segments and its
attributes. A parsed TOML file is a map from site names to TOML values.

Three points about the code that the model keeps:

- The origin check is containment anywhere in the raw, untrimmed input, not a prefix test.
- The site key is derived separately from that check, from the parsed host, after the page is
  fetched.
- The title goes into the file name unsanitised.

## Model

| member | source | states |
|---|---|---|
| `Site.ValidateSupportedUrl` | src/main.rs:84-88 | accepted iff the string parses and contains `https://15gram.be/` or `https://dagelijksekost.vrt.be/` at some position |
| `Site.OriginAnywhereAccepted` | src/main.rs:85-88 | containment, not prefix: any parsable string with an origin anywhere inside is accepted |
| `Site.MissingCharRejected` | src/main.rs:87 | a string lacking a character of each origin is rejected whatever the parser says |
| `Site.ShortUrlRejected` | src/main.rs:87 | a string shorter than the shorter origin is rejected |
| `Site.HttpVariantRejected` | src/main.rs:87 | `http://15gram.be/` is rejected |
| `Site.UpperCaseVariantRejected` | src/main.rs:87 | `HTTPS://15GRAM.BE/` is rejected |
| `Site.NoTrailingSlashRejected` | src/main.rs:87 | `https://15gram.be` (no trailing slash) is rejected |
| `Site.UnsupportedDomainRejected` | src/main.rs:85-88 | `https://example.com/recipe` is rejected |
| `Site.ParseWebsiteName` | src/main.rs:206-209 | no key iff the URL does not parse or has no host; otherwise a dot-free prefix of the host ending at its first dot |
| `Site.SupportedSiteKeys` | src/main.rs:206-209 | hosts `15gram.be` and `dagelijksekost.vrt.be` give keys `15gram` and `dagelijksekost` |
| `Site.UndottedHostIsKey` | src/main.rs:208 | a host without a dot is its own key |
| `Site.ValidateUrl` | src/main.rs:139-155 | success iff the trimmed input parses with scheme http/https and a host; each failure carries its own message |
| `Site.ValidateUrlIgnoresBlanks` | src/main.rs:140 | whitespace around the input never changes the verdict |
| `Registry.Get` | src/main.rs:129 | `Value::get`: an entry exists iff the value is a table holding the key, and then it is that entry; a non-table has no entries |
| `Registry.AsStr` | src/main.rs:131 | `Value::as_str`: a string iff the value is a TOML string, and then its text |
| `Registry.ReadSelector` | src/main.rs:131-135 | the `get`/`as_str`/`unwrap_or_default` chain yields the string under the key, or "" when the entry is not a table, the key is missing or its value is not a string |
| `Registry.LoadSelectors` | src/main.rs:129-136 | fails iff the site is absent; otherwise every field is the string under its own key, or "" when missing or not a string |
| `Registry.FieldsIndependent` | src/main.rs:130-136 | a field's selector depends only on that field's own entry |
| `Registry.NonTableSiteAllEmpty` | src/main.rs:129-136 | a site entry that is not a table loads as five empty selectors |
| `Extract.FirstMatchFrom` | src/main.rs:159 | the first matching position at or after `from`, or none when nothing from there matches |
| `Extract.SelectFirst` | src/main.rs:157-160 | none iff the selector fails to compile or selects nothing; otherwise the first selected element in document order |
| `Extract.FirstMatchUnique` | src/main.rs:159 | the first match is unique |
| `Extract.GetRecipeTitle` | src/main.rs:162-168 | absent iff no match; otherwise the first match's inner HTML verbatim |
| `Extract.GetRecipeDescription` | src/main.rs:170-176 | absent iff no match; otherwise trim of the segments joined by one space, never blank at either end |
| `Extract.BlankDescriptionIsEmpty` | src/main.rs:171 | an all-whitespace match yields `Some("")`, not absent |
| `Extract.GetRecipeIngredients` | src/main.rs:178-186 | absent iff no match; otherwise the cleaned segments, each non-empty and trimmed, no more than there were segments |
| `Extract.GetRecipeSteps` | src/main.rs:188-196 | the same contract as the ingredients, on the steps selector |
| `Extract.StepsLikeIngredients` | src/main.rs:178-196 | steps and ingredients extraction agree on equal inputs |
| `Extract.GetRecipeImage` | src/main.rs:198-204 | absent when nothing matches; otherwise the first match's `src` verbatim, absent without one |
| `Extract.BadSelectorAbsent` | src/main.rs:157-158 | a selector that does not compile makes all five fields absent |
| `Assembly.ExtractRecipe` | src/main.rs:96-106 | each field is its own extractor's result on its own selector and the source URL is verbatim; text fields in normal form; each text field absent exactly when its own selector selects nothing, the image link absent when nothing matches |
| `Assembly.FieldsDependOnOwnSelector` | src/main.rs:97-105 | selector sets that agree on a field give that field the same value |
| `Assembly.MissingStepsEntry` | src/main.rs:131-136 | no `steps` entry: loading succeeds and the other fields are extracted normally; steps come out absent when the engine rejects the empty selector |
| `Assembly.IngredientSegmentsExample` | src/main.rs:180 | segments `200g tomato`, `\n\n`, `1 onion\n` clean to `[200g tomato, 1 onion]` |
| `Assembly.FileName` | src/main.rs:110-113 | `recipe_` + title + `.json` with the title unchanged, or `recipe.json` without a title |
| `Assembly.FileNameInjective` | src/main.rs:110-113 | distinct titles, and a title versus no title, never share a file name |
| `Assembly.FilePath` | src/main.rs:117 | the folder, one `/`, then the file name |
| `Assembly.SlashInTitleEscapesFolder` | src/main.rs:110-117 | a `/` in the title adds a separator past the output folder |
| `Text.IsWhitespace` | src/main.rs:180 | the Unicode White_Space class `trim` strips; on ASCII exactly space, tab, LF, VT, FF and CR, and nothing beyond U+3000 |
| `Text.Trim` | src/main.rs:171 | the result is trimmed and is a slice of the input with only whitespace cut from each side |
| `Text.TrimUnique` | src/main.rs:171 | a trimmed string between whitespace runs is exactly what trim returns |
| `Text.TrimTrimmed` | src/main.rs:180 | trim leaves a trimmed string unchanged, so it is idempotent |
| `Text.TrimEmptyIff` | src/main.rs:180 | trim yields "" iff the input is all whitespace |
| `Text.TrimAbsorbsBlanks` | src/main.rs:140 | whitespace added around a string does not change its trim |
| `Text.Join` | src/main.rs:171 | the join starts with the first part; blank parts with a blank separator join to a blank string |
| `Text.JoinSingle` | src/main.rs:171 | a single part joins to itself, with no separator |
| `Text.JoinAppend` | src/main.rs:171 | the separator sits between every pair of consecutive parts: joining two non-empty runs is joining each with one separator between |
| `Text.Contains` | src/main.rs:87 | true iff the pattern occurs at some position |
| `Text.OccursKeepsChars` | src/main.rs:87 | every character of an occurring pattern is in the haystack |
| `Text.FirstLabel` | src/main.rs:208 | a dot-free prefix of the host, stopping at the first dot |
| `Text.FirstLabelOfDotted` | src/main.rs:208 | for a dot-free `a`, the first label of `a.b` is `a` |
| `Text.TrimAll` | src/main.rs:180 | same length, each part trimmed in place |
| `Text.DropEmpty` | src/main.rs:180 | keeps exactly the non-empty parts |
| `Text.CleanSegments` | src/main.rs:180 | every item non-empty and trimmed, no longer than the input; the items are exactly the non-empty trims of the segments |
| `Text.CleanSegmentsAppend` | src/main.rs:180 | cleaning keeps document order: it distributes over concatenation |
| `Text.CleanSegmentsSingle` | src/main.rs:180 | a segment contributes its trim, or nothing when blank |
| `Text.CleanSegmentsNoBlank` | src/main.rs:180 | with no blank segment nothing is dropped |
| `Text.CleanSegmentsIdempotent` | src/main.rs:180 | cleaning cleaned segments changes nothing |

## Left out

- `main` and the `Args` parser (src/main.rs:12-23, 55-82) are left out. They are process entry, argument parsing and the `current_exe` default folder.
- `fetch_html_document` is left out: it is an HTTP GET. The model starts from an already-parsed document.
- `load_selectors` reading and parsing the file (src/main.rs:126-127) is left out. Read and TOML parse errors are I/O; the model takes the parsed top-level table.
- HTML parsing, CSS selector syntax and matching, and URL parsing come from the `scraper` and `url` crates. They are parameters here, not models.
- JSON serialisation, `create_dir_all`, `File::create`, `write_all` and every `println!` are left out. They are I/O and logging; only the file name and path strings are modelled.
- The `verbose` flag of the extractors only guards `println!`. The modelled extractors therefore take no flag, which also means the flag cannot change a result.
- `Extract.GetRecipeImage`: its contract does not state "absent iff no match", because a match without `src` is absent too. It states each case instead.
