# kleinanzeigen-bot: ad loading and publishing bookkeeping, in Dafny

This project models the logic at the centre of kleinanzeigen-bot, a tool that
publishes classified ads from YAML ad definitions. Everything else in the
program drives a browser. The model covers these parts:

- **Discovery of the ad files.** The configured `ad_files` patterns are matched from the configuration's directory. Matches ending in `ad_fields.yaml` are dropped and the rest become absolute paths in a set. The files are then processed in ascending path order.
- **Resolution of each ad.** Each file is loaded once and resolved on a separate copy in these steps:
  - the ad defaults are applied;
  - the selection: the inactive filter, then the `new` selector or the `due` selector;
  - the description is composed with the prefix and suffix and checked against the 4000-character bound;
  - the first-failure validator runs;
  - the derived fields are computed: the id as an integer, the category code, the rounded shipping costs and the images.
- **Image resolution.** For each pattern:
  - every match is checked against the extension allow-list and made absolute;
  - the matches are sorted.

  The sorted lists are then concatenated in pattern order, and repeated paths are dropped where they occur again. Resolution fails when patterns were given but nothing matched.
- **The category table.** The bundled categories are overlaid by the configured ones.
- **The bookkeeping after publishing and deleting.** `delete_ad` clears the id of the resolved definition. `publish_ad` writes three things back into the definition as loaded, which is the one that is saved:
  - the time stamp;
  - the creation stamp, on a first publication only;
  - the assigned ad id.
- **The shipping options.** Each option maps to a carrier package, and all of an ad's options must belong to one package size.

Code that computes a value is written as functions and lemmas: the
selection, the validator, the field derivations, the shipping mapping and the
ordering builtins. Code that changes state is written imperatively:

- The bot object is the class `Bot.KleinanzeigenBot`. Its methods update the category table and run the discovery and the `load_ads` loop.
- Ad definitions are objects of the class `Loader.AdConfig`, which `delete_ad` and `publish_ad` update in place.
- The loops over patterns, matches and files are `while` loops. Each is proved against a specification function: `Discovered`, `PatternImages`, `ResolveImageField` and `LoadAll`. The lemmas then state the source's promises about those functions.
- The in-place resolution of one ad, `Loader.ResolveAdConfig`, is a sequence of updates to one definition object with no loop. It is proved against `ResolveEntries`.

Calls into code the model does not contain are parameters, kept in the
record `Loader.Env`:

- glob expansion;
- `utils.abspath`;
- `utils.load_dict`;
- the two `apply_defaults` calls, taken together;
- `parse_datetime`, giving seconds;
- the rounding of the shipping costs;
- the clock, in seconds.

Files:

| file | contents |
|---|---|
| `values.dfy` | the YAML value, truthiness, errors and field access |
| `strings.dfy` | string order and the path helpers |
| `ordering.dfy` | `sorted` and `dict.fromkeys` |
| `selection.dfy` | the selection |
| `validation.dfy` | the validator |
| `fields.dfy` | the derived fields and the category table |
| `images.dfy` | the images |
| `shipping.dfy` | the shipping options |
| `loader.dfy` | the resolution of one ad and of the whole load |
| `publish.dfy` | delete and publish bookkeeping as functions |
| `bot.dfy` | the bot class and the imperative load |

## Model

| member | source | states |
|---|---|---|
| Values.Truthy | kleinanzeigen_bot/__init__.py:235 | Python's `bool(v)`: None, False, 0, the empty string, list and dict are false, everything else true (definition) |
| Values.Get | kleinanzeigen_bot/__init__.py:235 | `ad_cfg[key]`: the value when the key is present, otherwise the KeyError (definition) |
| Values.SafeGet | kleinanzeigen_bot/__init__.py:266 | `safe_get(ad_cfg, *path)`: follows the keys of the path through nested dicts, None as soon as a key is missing or a step is not a dict (definition) |
| Values.OrEmpty | kleinanzeigen_bot/__init__.py:223-224 | `v or ""` is as truthy as `v`, and is `v` itself whenever `v` is truthy |
| Values.SafeGetOtherKey | kleinanzeigen_bot/__init__.py:266-273 | a nested `safe_get` read depends only on the field its path starts with; updating any other key leaves it unchanged |
| Strings.Less | kleinanzeigen_bot/__init__.py:228 | Python's `<` on str, code point by code point with a proper prefix first (definition); irreflexive, transitive and total by the three lemmas below |
| Strings.LessIrreflexive | kleinanzeigen_bot/__init__.py:228 | no string is below itself |
| Strings.LessTransitive | kleinanzeigen_bot/__init__.py:228 | the order is transitive |
| Strings.LessTotal | kleinanzeigen_bot/__init__.py:228 | of two different strings one is below the other, so `sorted` has a single answer |
| Strings.EndsWith | kleinanzeigen_bot/__init__.py:217 | `str.endswith`: the suffix is the final part of the string (definition) |
| Strings.Extension | kleinanzeigen_bot/__init__.py:302 | `os.path.splitext(p)[1]` (POSIX): from the last dot of the last component, unless that component is dots up to there (definition) |
| Strings.LowerAscii | kleinanzeigen_bot/__init__.py:303 | `str.lower()` on ASCII letters, keeping length and every other character |
| Strings.Dirname | kleinanzeigen_bot/__init__.py:214 | `os.path.dirname` (POSIX): up to the last slash, trailing slashes removed unless the head is all slashes (definition) |
| Strings.IsAbs | kleinanzeigen_bot/__init__.py:304 | `os.path.isabs` (POSIX): the path starts with a slash (definition) |
| Strings.ExtensionShape | kleinanzeigen_bot/__init__.py:302 | the extension `splitext` yields is empty, or a final part of the path that starts with its only dot and holds no slash |
| Ordering.SortedSeq | kleinanzeigen_bot/__init__.py:228 | `sorted` of a set of paths is strictly ascending and holds exactly the set's elements |
| Ordering.SortedUnique | kleinanzeigen_bot/__init__.py:228 | two strictly ascending listings of the same elements are equal, so `sorted` has only one possible result |
| Ordering.SortedFromSet | kleinanzeigen_bot/__init__.py:228 | the loop that sorts a set yields exactly `SortedSeq` of it |
| Ordering.FromKeys | kleinanzeigen_bot/__init__.py:310 | `list(dict.fromkeys(xs))` has no repetitions and the same elements as `xs` |
| Ordering.FromKeysFirstOccurrenceOrder | kleinanzeigen_bot/__init__.py:310 | the kept elements appear in the order of their first occurrences in the input |
| Ordering.FromKeysOfNoDup | kleinanzeigen_bot/__init__.py:310 | a list without repetitions is kept as it is, so applying the step twice is applying it once |
| Selection.AgeDays | kleinanzeigen_bot/__init__.py:252 | `timedelta.days`: the elapsed seconds lie in the whole-day window `[d, d+1)` days, also for a time stamp in the future |
| Selection.LastPublished | kleinanzeigen_bot/__init__.py:244-249 | last published is `updated_on` when truthy, else `created_on` when truthy, else never; a missing key read before a decision is a KeyError |
| Selection.WithinInterval | kleinanzeigen_bot/__init__.py:253 | `age <= interval` for an integer interval, and against 0 or 1 for a bool one; it fails exactly for an interval that is neither an int nor a bool |
| Selection.Due | kleinanzeigen_bot/__init__.py:243-259 | an ad is due when it was never published, or when its whole days since the last publication exceed its interval (definition, characterised by `DueWindow`) |
| Selection.Select | kleinanzeigen_bot/__init__.py:235-259 | a kept ad is active (under `ignore_inactive`), has no id (under `new` with `check_id`) and is due (under `due`); under `ignore_inactive` an inactive ad is skipped as inactive |
| Selection.SelectKeepsExactly | kleinanzeigen_bot/__init__.py:235-259 | with the fields present, selection never fails, and it keeps an ad exactly when all three filters pass: both directions |
| Selection.DueWindow | kleinanzeigen_bot/__init__.py:243-259 | an ad that was published is due exactly when at least `interval + 1` whole days (in seconds) have passed since it was last published |
| Validation.FirstFailure | kleinanzeigen_bot/__init__.py:275-285 | no failure exactly when every rule passes; a reported failure is that of a rule all of whose predecessors passed |
| Validation.Check | kleinanzeigen_bot/__init__.py:265-285 | what one of `assert_one_of`, `assert_min_len`, `assert_has_value` and the price rules reports on the ad: a list or dict tested for membership is a TypeError (definition) |
| Validation.Length | kleinanzeigen_bot/__init__.py:269 | `len(v)`: the length of a string, list or dict, and a TypeError for None, a number or a bool (definition) |
| Validation.Validate | kleinanzeigen_bot/__init__.py:275-285 | the first failure of the rules in the source's order (definition; characterised by `FirstFailure` and `ValidAdMeetsRules`) |
| Validation.ValidAdMeetsRules | kleinanzeigen_bot/__init__.py:275-285 | an ad the validator accepts meets every rule: type, title length of at least 10, description, price type, the GIVE_AWAY and FIXED price rules, shipping type, contact name and republication interval |
| Validation.FirstFailureAt | kleinanzeigen_bot/__init__.py:275-285 | when the earlier rules pass and no later rule can report `e`, the validator reports `e` exactly when rule `k` does |
| Validation.GiveAwayPriceRule | kleinanzeigen_bot/__init__.py:279-280 | for a GIVE_AWAY ad whose first four fields are valid, the validator reports a given price exactly when the price is truthy |
| Validation.ValidateReadsOnlyValidatedFields | kleinanzeigen_bot/__init__.py:265-285 | two ads that agree on the validated fields receive the same verdict |
| Fields.TextOfFalsy | kleinanzeigen_bot/__init__.py:223-224 | a missing (falsy) prefix, body or suffix counts as the empty text |
| Fields.Text | kleinanzeigen_bot/__init__.py:261 | the text `v or ""` stands for: "" for a falsy value, the string itself for a truthy string, and a TypeError in the concatenation for anything else (definition) |
| Fields.ComposeDescription | kleinanzeigen_bot/__init__.py:261-262 | the description is prefix + body + suffix, each falsy part counting as ""; it is accepted iff it has at most 4000 characters, and otherwise the error carries its length |
| Fields.CoerceId | kleinanzeigen_bot/__init__.py:287-288 | `int(id)` gives an integer: integers as they are, booleans as 0 and 1, decimal text as its parsed value; it fails exactly on values that are not int, bool or decimal text |
| Fields.CoerceIdIdempotent | kleinanzeigen_bot/__init__.py:287-288 | coercing an already coerced id changes nothing |
| Fields.CoerceIdOfDecimalText | kleinanzeigen_bot/__init__.py:287-288 | an id stored as its decimal text (any sign) coerces back to the same integer |
| Fields.ParseInt | kleinanzeigen_bot/__init__.py:288 | `int(s)` for an optional sign followed by at least one ASCII digit, and no result for anything else (definition) |
| Fields.Overlay | kleinanzeigen_bot/__init__.py:332-334 | the table has the keys of both maps; configured entries win on a shared key, and bundled entries are kept elsewhere |
| Fields.LookupCategory | kleinanzeigen_bot/__init__.py:291 | `categories.get(c, c)`: the table's entry for a known name, the value itself otherwise (definition) |
| Fields.Unhashable | kleinanzeigen_bot/__init__.py:291 | the values `dict.get` cannot hash, lists and dicts, for which the lookup raises TypeError (definition) |
| Fields.CategoryResolution | kleinanzeigen_bot/__init__.py:290-291 | a category resolves through the configured entry, then the bundled one, and is otherwise kept as given |
| Fields.ResolveId | kleinanzeigen_bot/__init__.py:287-288 | only `id` changes: a truthy id becomes its coerced integer, a falsy one stays; fails exactly when `id` is missing or cannot be coerced |
| Fields.ResolveCategory | kleinanzeigen_bot/__init__.py:290-291 | only `category` changes: a truthy category is looked up in the table with itself as the fallback; fails exactly on a missing key or on a truthy list or dict category, which `dict.get` cannot hash |
| Fields.ResolveShippingCosts | kleinanzeigen_bot/__init__.py:293-294 | only `shipping_costs` changes, rounded when truthy; fails exactly on a missing key |
| Images.FirstRefused | kleinanzeigen_bot/__init__.py:301-303 | the position of the first refused match: every earlier match is accepted, and the one at that position is refused |
| Images.IsAllowedImage | kleinanzeigen_bot/__init__.py:302-303 | the extension from `splitext`, lower-cased, lies in the allow-list {.gif, .jpg, .jpeg, .png} (definition) |
| Images.Matches | kleinanzeigen_bot/__init__.py:300-301 | the glob of a pattern rooted at `dirname(ad_file)` (definition) |
| Images.AbsoluteImage | kleinanzeigen_bot/__init__.py:304-307 | an absolute match is kept as it is, any other match is made absolute relative to the ad file (definition) |
| Images.ConcatSorted | kleinanzeigen_bot/__init__.py:308 | `images.extend(sorted(s))` for each pattern's set in turn, from the empty list (definition) |
| Images.PatternImages | kleinanzeigen_bot/__init__.py:299-307 | one pattern's set of absolute matches, or the error for its first match outside the allow-list (definition) |
| Images.PatternListing | kleinanzeigen_bot/__init__.py:297-308 | the list `images` holds after the pattern loop: the sorted sets concatenated in pattern order, or the first error (definition) |
| Images.ResolveImageField | kleinanzeigen_bot/__init__.py:296-310 | the `images` field after resolution: unchanged when falsy, otherwise `FromKeys` of the listing, failing when the listing is empty (definition) |
| Images.CollectPatternImages | kleinanzeigen_bot/__init__.py:299-307 | the inner loop over a pattern's matches yields the set `PatternImages` defines, or the error for the first match with a disallowed extension |
| Images.ResolveImages | kleinanzeigen_bot/__init__.py:296-310 | the image loop yields exactly `ResolveImageField` of the field |
| Images.StrList | kleinanzeigen_bot/__init__.py:310 | the stored list holds the paths as strings, position for position |
| Images.PatternListingMembers | kleinanzeigen_bot/__init__.py:297-308 | the concatenated listing holds exactly the absolute forms of the patterns' matches |
| Images.ResolvedImagesProperties | kleinanzeigen_bot/__init__.py:296-310 | a resolved `images` field is a non-empty list of distinct paths, in which every path comes from a match of some pattern and every match has an allowed extension; it is `FromKeys` of the concatenated sorted listings |
| Images.ResolvedImagesAllowed | kleinanzeigen_bot/__init__.py:302-303 | with an `abspath` that keeps an allowed extension (as a normalising one does), every resolved image has an extension in {.gif, .jpg, .jpeg, .png}, compared in lower case |
| Images.NoMatchesFails | kleinanzeigen_bot/__init__.py:309 | patterns that match nothing make resolution fail with "no images found" |
| Shipping.MapOptions | kleinanzeigen_bot/__init__.py:642 | one package per option, in option order, each the option's entry in the mapping |
| Shipping.IsKnownOption | kleinanzeigen_bot/__init__.py:642 | the option is a key of the mapping, so looking it up raises no KeyError (definition) |
| Shipping.PackageOf | kleinanzeigen_bot/__init__.py:642 | the mapping's package size and package name for a known option (definition) |
| Shipping.SelectShipping | kleinanzeigen_bot/__init__.py:641-651 | succeeds iff every option is known, there is at least one option, and all options share one size; the result is that size and the packages in option order; an unknown option and an empty list are each reported as such, in both directions, and known options of two different sizes are reported as several package sizes |
| Shipping.SizesOfOneSize | kleinanzeigen_bot/__init__.py:647-648 | a non-empty package list has at most one size exactly when every package has the first one's size |
| Shipping.SameSizeOptionsSucceed | kleinanzeigen_bot/__init__.py:646-651 | options of a single size always succeed with that size, whatever their order or repetition |
| Shipping.MixedSizesRefused | kleinanzeigen_bot/__init__.py:647-649 | DHL_2 together with DHL_5 is refused as several package sizes |
| Loader.AdConfig.constructor | kleinanzeigen_bot/__init__.py:230-231 | a new definition object holding the given entries |
| Loader.Discovered | kleinanzeigen_bot/__init__.py:213-218 | the set `ad_files` after the discovery loops (definition, characterised by `DiscoveredMembers`) |
| Loader.PatternAdFiles | kleinanzeigen_bot/__init__.py:216-218 | one pattern's contribution: each match not ending in `ad_fields.yaml`, tested on the raw match, made absolute relative to the data root (definition) |
| Loader.DiscoveredMembers | kleinanzeigen_bot/__init__.py:213-218 | a path is discovered exactly when it is the absolute form of a match of some configured pattern that does not end in `ad_fields.yaml` |
| Loader.DiscoveredSkipsAdFields | kleinanzeigen_bot/__init__.py:215-218 | with an `abspath` that produces a name ending in `ad_fields.yaml` only from such a match, no discovered path ends in `ad_fields.yaml`; the condition is the program's own, since line 217 tests the raw match, and a match such as `ad_fields.yaml/.` that `abspath` normalises would pass the filter |
| Loader.Describe | kleinanzeigen_bot/__init__.py:261-262 | the description replaced by the composed text, or its failure (definition, characterised by `DescribeProperties`) |
| Loader.Derive | kleinanzeigen_bot/__init__.py:287-310 | id, category, shipping costs and images resolved in the source's order (definition, characterised by `DeriveProperties`) |
| Loader.ResolveEntries | kleinanzeigen_bot/__init__.py:230-310 | one ad: defaults, selection, description, validator, derived fields; None when skipped (definition, characterised by `ResolvedAdProperties` and `SkippedAdNotSelected`) |
| Loader.ResolveAd | kleinanzeigen_bot/__init__.py:230-310 | the resolution of the definition `load_dict` returns for a file (definition) |
| Loader.DescribeProperties | kleinanzeigen_bot/__init__.py:261-262 | describing changes only the description, which becomes the composed text within the bound |
| Loader.DeriveProperties | kleinanzeigen_bot/__init__.py:287-310 | deriving changes only id, category, shipping costs and images, each as its step defines |
| Loader.DerivedFieldsNotValidated | kleinanzeigen_bot/__init__.py:275-310 | the validator reads none of the fields derived after it, so its verdict still holds for the resolved ad |
| Loader.ResolvedAdProperties | kleinanzeigen_bot/__init__.py:230-310 | every kept ad was selected, passes the validator, carries the composed description and the derived fields, and keeps every other field of its default-applied definition |
| Loader.SkippedAdNotSelected | kleinanzeigen_bot/__init__.py:235-259 | an ad is skipped only because the selection declined it, and a skip is never a failure |
| Loader.LoadAll | kleinanzeigen_bot/__init__.py:228-316 | the list built over the sorted files, or the first failure (definition, characterised by `LoadAllContents` and `LoadAllSorted`) |
| Loader.LoadAds | kleinanzeigen_bot/__init__.py:210-319 | nothing when no file was discovered, otherwise `LoadAll` over the discovered files in ascending order (definition, characterised by `LoadAdsProperties`) |
| Loader.LoadAllContents | kleinanzeigen_bot/__init__.py:228-316 | a successful load resolved every file without failure; its entries are exactly the kept files, each with its resolved definition and its definition as loaded |
| Loader.LoadAllSorted | kleinanzeigen_bot/__init__.py:228 | entries follow the order of the files, so ascending files give strictly ascending entries |
| Loader.LoadAdsProperties | kleinanzeigen_bot/__init__.py:210-319 | the result is in strictly ascending path order; each entry is a discovered file (never the absolute form of a match ending in `ad_fields.yaml`), with its untouched definition as loaded and a resolved definition meeting `ResolvedFrom`; every discovered file the selection keeps is present |
| Loader.ResolveAdConfig | kleinanzeigen_bot/__init__.py:230-310 | the in-place resolution of one definition object fails, skips or keeps exactly as `ResolveEntries` says, and a kept object holds the resolved definition |
| Bot.LoadOne | kleinanzeigen_bot/__init__.py:230-316 | one file gives no entry, an entry or the error exactly as `ResolveAd` says; an entry holds two new objects, the resolved definition and the definition as loaded |
| Bot.LoadNext | kleinanzeigen_bot/__init__.py:228-316 | one loop step extends the list exactly as `LoadAll` does on one more file, or ends it with `LoadAll`'s error |
| Bot.LoadFiles | kleinanzeigen_bot/__init__.py:228-316 | the loop over the sorted files gives entry by entry what `LoadAll` gives, with two distinct new objects per entry |
| Bot.KleinanzeigenBot.constructor | kleinanzeigen_bot/__init__.py:31-51 | a new bot has an empty configuration and category table, selector `due`, and deletes old ads before publishing |
| Bot.KleinanzeigenBot.LoadCategories | kleinanzeigen_bot/__init__.py:332-334 | the category table becomes the bundled table overlaid by the configured categories |
| Bot.KleinanzeigenBot.DiscoverAdFiles | kleinanzeigen_bot/__init__.py:213-218 | the nested discovery loops yield exactly `Discovered` for the configured patterns and the configuration's directory |
| Bot.KleinanzeigenBot.CurrentSettings | kleinanzeigen_bot/__init__.py:223-224 | the selector, the two flags, the description prefix and suffix and the category table that `load_ads` reads (definition) |
| Bot.KleinanzeigenBot.LoadAds | kleinanzeigen_bot/__init__.py:210-319 | `load_ads` returns, entry by entry, what `Loader.LoadAds` specifies, with the resolved definition and the definition as loaded in two distinct new objects |
| Bot.KleinanzeigenBot.DeleteAd | kleinanzeigen_bot/__init__.py:428-430 | the id of the resolved definition becomes None, nothing else changes, and the result is success |
| Bot.KleinanzeigenBot.PublishAdAsWritten | kleinanzeigen_bot/__init__.py:576-583 | publishing as the source does it: the first-publication check reads the definition after `delete_ad`; the definition as loaded receives the write-back |
| Bot.KleinanzeigenBot.PublishAd | kleinanzeigen_bot/__init__.py:576-583 | publishing with the check read before the delete: the loaded definition receives the write-back, and `created_on` is stamped only for an ad that had neither `created_on` nor an id |
| Publish.ClearId | kleinanzeigen_bot/__init__.py:429 | after delete, `id` is None and every other key is unchanged |
| Publish.IsFirstPublication | kleinanzeigen_bot/__init__.py:577 | a first publication is one with empty `created_on` and empty `id`; the KeyError cases are exactly those where a key is missing when it is read |
| Publish.FirstPublicationAsWritten | kleinanzeigen_bot/__init__.py:448-449 | the first-publication check as the source orders it: on the definition after `delete_ad` when old ads are deleted (definition) |
| Publish.WriteBack | kleinanzeigen_bot/__init__.py:576-583 | the definition as loaded gets `updated_on` = now and `id` = the assigned id, plus `created_on` = now on a first publication only; no other key changes |
| Publish.WriteBackMarksPublished | kleinanzeigen_bot/__init__.py:576-583 | after the write-back the next publication is not a first one, the id is truthy, and the due selector counts its days from the stamp |
| Publish.WriteBackIdempotent | kleinanzeigen_bot/__init__.py:576-583 | writing back twice with the same stamp and id is the same as writing back once |
| Publish.DeleteBeforeCheckHidesId | kleinanzeigen_bot/__init__.py:448-449 | with old ads deleted first, an ad with an id and no `created_on` is treated as a first publication, although the intended check says it is not |
| Publish.FirstPublicationNeedsNoId | kleinanzeigen_bot/__init__.py:577 | an ad with an id is never a first publication under the intended check; the source's check can count it as one only when old ads are deleted first |
| Publish.AsWrittenAgreesWithoutId | kleinanzeigen_bot/__init__.py:448-449 | the two checks agree when old ads are kept, or when the id was already empty |

## Left out

- The browser and web steps are not modelled: login, captchas, form filling, the category and special-attribute pages, image upload, the HTTP requests of `delete_ad`, `delete_ads_by_title` and ad-page downloads. They are DOM and network I/O.
- The command line, logging, signal handling and the `publish_ads` / `delete_ads` loops are not modelled. They only call the modelled per-ad operations in sequence.
- `apply_defaults`, `load_dict` / `save_dict`, `parse_datetime`, the `parse_decimal` rounding of the shipping costs, glob expansion, `abspath` and the clock are all parameters. Their code is not part of this model. They are total functions, so their own failures are not modelled: a malformed time stamp, a malformed shipping cost, or an unreadable or malformed ad file.
- `load_config` is modelled only for the category overlay. The defaults merge, the creation of a missing configuration and the browser settings are plain I/O and field copying. The login checks (lines 337-338, which fail on an empty username or password) are not modelled.
- Bot.KleinanzeigenBot.constructor takes the configuration path as a parameter, rather than computing `abspath("config.yaml")`.
- The publish methods take the time stamp and the assigned ad id as parameters. In the source these come from `datetime.utcnow().isoformat()` and from the confirmation page's URL.
- Shipping.SelectShipping computes the size and the packages to tick. The clicks that tick them are browser steps.
- Bot.KleinanzeigenBot.LoadAds does not state whether objects of different entries alias one another. It only states that each entry's two objects are new and distinct.
- `utils.safe_get` is not part of this model. Its behaviour is taken to be: None as soon as a key is missing or a step is not a dict.
- Images.ResolveImageField treats an `images` value that is a non-empty string or dict as a type error. Python would iterate over its characters or keys.
- Images.PatternStep treats an `images` entry that is not a string as a type error. The glob library the source calls also accepts a list of patterns there.
- Shipping.SelectShipping treats every non-string option as unknown. Python would raise TypeError for an unhashable option instead of KeyError.
- Fields.CoerceId accepts an optional sign followed by ASCII digits. `int()` also accepts surrounding whitespace, underscores and non-ASCII digits.
- Fields.ParseInt parses only an optional sign followed by ASCII digits, and gives no result for anything else. `int()` also accepts surrounding whitespace (`int(" 5")` is 5), underscores between digits and non-ASCII digits.
- Fields.ComposeDescription requires each of the prefix, body and suffix to be a string or falsy, and reports any other value as a type error. Python would also concatenate three lists, and that list could then pass the validator. The prefix and suffix come from the configuration, where they are strings.
- Bot.KleinanzeigenBot.DeleteAd succeeds on any definition. The source first reads `ad_cfg["title"]` (line 401), which raises KeyError when the title is missing. Every definition `load_ads` hands out has a title, because the validator checks its length (line 276). `delete_ad` also reads `ad_cfg["id"]` (line 420, or line 413 when deleting by title), which raises KeyError when the id is missing, whereas `ClearId` adds the key. No definition `load_ads` hands out lacks an id, because `ResolveId` fails on a missing one.
- Bot.Config holds `ad_files` as strings and `categories` as a map from strings to strings. A YAML configuration can hold other kinds there, for example a category code written as a number, and the model does not cover those.
- Strings.LowerAscii lowers ASCII letters only. `str.lower()` also lowers other scripts, but every allowed extension is ASCII.
- Floating-point values in ad definitions are not part of the value model.
- Error messages are modelled as an error kind with the offending path or file. The log output and the ad file name in each message are not modelled.

## Findings

| source | as written | input that shows it | evidently intended | confidence | as-written member | corrected member |
|---|---|---|---|---|---|---|
| kleinanzeigen_bot/__init__.py:448-449 | `publish_ad` calls `delete_ad(ad_cfg)`, which sets `ad_cfg["id"]` to None, before the first-publication check `not ad_cfg["created_on"] and not ad_cfg["id"]` at line 577; with `delete_old_ads` (the default) the id test is therefore always true | a republished ad with `created_on: None` and `id: 12345`: it is stamped with a new `created_on` as if it were new | only an ad with neither a creation stamp nor an id receives `created_on`: the check reads the id as it was before the delete | not executed | Publish.DeleteBeforeCheckHidesId, Bot.KleinanzeigenBot.PublishAdAsWritten | Bot.KleinanzeigenBot.PublishAd, Publish.FirstPublicationNeedsNoId |
