/** The per-file pipeline of `load_ads` (kleinanzeigen_bot/__init__.py,
    lines 210-319): discovery of the ad files, then for each file in sorted
    order the defaults, the selection, the description, the validator and
    the derived fields, on a copy of the loaded definition. */
module Loader {
  import opened Values
  import opened Strings
  import opened Ordering
  import opened Selection
  import opened Validation
  import opened Fields
  import opened Images

  /** The calls into code outside the model, passed in:
      `glob(pattern, root_dir)`, `abspath(path, relative_to)`,
      `load_dict(ad_file)`, both `apply_defaults` calls of lines 232-233 at
      once, `parse_datetime` in seconds, the rounding of `shipping_costs`,
      and `datetime.utcnow()` in seconds. */
  datatype Env = Env(
    glob: (string, string) -> seq<string>,
    abspath: (string, string) -> string,
    loadAd: string -> Ad,
    applyDefaults: Ad -> Ad,
    parseDatetime: Value -> int,
    roundShippingCosts: Value -> Value,
    now: int)

  /** What one run of the resolution depends on besides the file: the
      selector, the two flags of `load_ads`, the description prefix and
      suffix of the ad defaults, and the category table. */
  datatype Settings = Settings(
    selector: string,
    ignoreInactive: bool,
    checkId: bool,
    prefix: Value,
    suffix: Value,
    categories: map<string, string>)

  /** A mutable ad definition: the dict `load_ads` hands out and the
      publishing steps update in place. */
  class AdConfig {
    var entries: Ad

    constructor(entries: Ad)
      ensures this.entries == entries
    {
      this.entries := entries;
    }
  }

  // Discovery (lines 213-220)

  const AdFieldsFile: string := "ad_fields.yaml"

  /** The absolute paths one pattern's matches contribute: all but those
      ending in `ad_fields.yaml`. */
  function PatternAdFiles(matches: seq<string>, dataRoot: string, abspath: (string, string) -> string): set<string> {
    set k | 0 <= k < |matches| && !EndsWith(matches[k], AdFieldsFile) :: abspath(matches[k], dataRoot)
  }

  lemma PatternAdFilesStep(matches: seq<string>, j: nat, dataRoot: string, abspath: (string, string) -> string)
    requires j < |matches|
    ensures PatternAdFiles(matches[..j + 1], dataRoot, abspath) ==
            PatternAdFiles(matches[..j], dataRoot, abspath) +
            (if EndsWith(matches[j], AdFieldsFile) then {} else {abspath(matches[j], dataRoot)})
  {
    var a := matches[..j + 1];
    var b := matches[..j];
    forall x | x in PatternAdFiles(a, dataRoot, abspath)
      ensures x in PatternAdFiles(b, dataRoot, abspath) + (if EndsWith(matches[j], AdFieldsFile) then {} else {abspath(matches[j], dataRoot)})
    {
      var k :| 0 <= k < |a| && !EndsWith(a[k], AdFieldsFile) && x == abspath(a[k], dataRoot);
      if k < j {
        assert a[k] == b[k];
      }
    }
    forall x | x in PatternAdFiles(b, dataRoot, abspath)
      ensures x in PatternAdFiles(a, dataRoot, abspath)
    {
      var k :| 0 <= k < |b| && !EndsWith(b[k], AdFieldsFile) && x == abspath(b[k], dataRoot);
      assert a[k] == b[k];
    }
    assert a[j] == matches[j];
  }

  /** The set `ad_files` after the loop over the configured patterns. */
  function Discovered(patterns: seq<string>, dataRoot: string, env: Env): set<string>
    decreases |patterns|
  {
    if |patterns| == 0 then {}
    else
      var n := |patterns| - 1;
      Discovered(patterns[..n], dataRoot, env) + PatternAdFiles(env.glob(patterns[n], dataRoot), dataRoot, env.abspath)
  }

  /** A discovered file is the absolute form of a match of some pattern that
      does not end in `ad_fields.yaml`; every such match is discovered. */
  lemma {:induction false} DiscoveredMembers(patterns: seq<string>, dataRoot: string, env: Env, f: string)
    ensures f in Discovered(patterns, dataRoot, env) <==>
            exists i, k :: 0 <= i < |patterns| && 0 <= k < |env.glob(patterns[i], dataRoot)| &&
                           !EndsWith(env.glob(patterns[i], dataRoot)[k], AdFieldsFile) &&
                           f == env.abspath(env.glob(patterns[i], dataRoot)[k], dataRoot)
    decreases |patterns|
  {
    if |patterns| > 0 {
      var n := |patterns| - 1;
      var init := patterns[..n];
      DiscoveredMembers(init, dataRoot, env, f);
      assert forall i :: 0 <= i < n ==> init[i] == patterns[i];
      var ms := env.glob(patterns[n], dataRoot);
      if f in PatternAdFiles(ms, dataRoot, env.abspath) {
        var k :| 0 <= k < |ms| && !EndsWith(ms[k], AdFieldsFile) && f == env.abspath(ms[k], dataRoot);
        assert 0 <= n < |patterns| && 0 <= k < |env.glob(patterns[n], dataRoot)|;
      }
      if exists i, k :: 0 <= i < |patterns| && 0 <= k < |env.glob(patterns[i], dataRoot)| &&
                        !EndsWith(env.glob(patterns[i], dataRoot)[k], AdFieldsFile) &&
                        f == env.abspath(env.glob(patterns[i], dataRoot)[k], dataRoot) {
        var i, k :| 0 <= i < |patterns| && 0 <= k < |env.glob(patterns[i], dataRoot)| &&
                    !EndsWith(env.glob(patterns[i], dataRoot)[k], AdFieldsFile) &&
                    f == env.abspath(env.glob(patterns[i], dataRoot)[k], dataRoot);
        if i == n {
          assert f in PatternAdFiles(ms, dataRoot, env.abspath);
        }
      }
    }
  }

  /** With an `abspath` that keeps a name ending in `ad_fields.yaml` only for
      such a match, no discovered path ends in `ad_fields.yaml`. */
  lemma DiscoveredSkipsAdFields(patterns: seq<string>, dataRoot: string, env: Env, f: string)
    requires forall m :: EndsWith(env.abspath(m, dataRoot), AdFieldsFile) ==> EndsWith(m, AdFieldsFile)
    requires f in Discovered(patterns, dataRoot, env)
    ensures !EndsWith(f, AdFieldsFile)
  {
    DiscoveredMembers(patterns, dataRoot, env, f);
  }

  // Resolution of one ad (lines 230-310)

  /** Lines 261-262: the description replaced by prefix, body and suffix. */
  function Describe(st: Settings, ad: Ad): Result<Ad> {
    var body :- Get(ad, "description");
    var description :- ComposeDescription(st.prefix, body, st.suffix);
    Ok(ad["description" := Str(description)])
  }

  /** Lines 287-310: id, category, shipping costs and images, in that order. */
  ghost function Derive(st: Settings, env: Env, file: string, ad: Ad): Result<Ad> {
    var withId :- ResolveId(ad);
    var withCategory :- ResolveCategory(withId, st.categories);
    var withCosts :- ResolveShippingCosts(withCategory, env.roundShippingCosts);
    var images :- Get(withCosts, "images");
    var resolvedImages :- ResolveImageField(images, file, env.glob, env.abspath);
    Ok(withCosts["images" := resolvedImages])
  }

  /** The resolved definition of one ad file, `None` when the selection skips
      it, or the failure that aborts the load. `raw` is what `load_dict`
      returned; it is only read. */
  ghost function ResolveEntries(st: Settings, env: Env, file: string, raw: Ad): Result<Option<Ad>> {
    var ad := env.applyDefaults(raw);
    var decision :- Select(ad, st.selector, st.ignoreInactive, st.checkId, env.parseDatetime, env.now);
    if decision != Keep then Ok(None)
    else
      var described :- Describe(st, ad);
      var failure := Validate(described);
      if failure.Some? then Err(failure.value)
      else
        var derived :- Derive(st, env, file, described);
        Ok(Some(derived))
  }

  ghost function ResolveAd(st: Settings, env: Env, file: string): Result<Option<Ad>> {
    ResolveEntries(st, env, file, env.loadAd(file))
  }

  /** The fields resolution may rewrite; every other field keeps its default-applied value. */
  const DerivedFields: set<string> := {"id", "category", "shipping_costs", "images"}
  const DerivedKeys: set<string> := DerivedFields + {"description"}

  /** `resolved` has the keys of `ad` and differs from it at most in the derived fields. */
  ghost predicate KeepsOtherFields(ad: Ad, resolved: Ad) {
    && resolved.Keys == ad.Keys
    && (forall k :: k in ad && k !in DerivedKeys ==> resolved[k] == ad[k])
  }

  /** The selection kept `ad`. */
  ghost predicate SelectedBy(st: Settings, env: Env, ad: Ad) {
    && Select(ad, st.selector, st.ignoreInactive, st.checkId, env.parseDatetime, env.now) == Ok(Keep)
    && (st.ignoreInactive ==> "active" in ad && Truthy(ad["active"]))
    && (st.selector == "new" && st.checkId ==> "id" in ad && !Truthy(ad["id"]))
    && (st.selector == "due" ==> Due(ad, env.parseDatetime, env.now))
  }

  /** The resolved description is prefix, body and suffix, within the bound. */
  ghost predicate DescribedAs(st: Settings, ad: Ad, resolved: Ad) {
    && "description" in ad && "description" in resolved
    && resolved["description"].Str? && |resolved["description"].s| <= MaxDescriptionLength
    && ComposeDescription(st.prefix, ad["description"], st.suffix) == Ok(resolved["description"].s)
  }

  /** The id, category, shipping costs and images as lines 287-310 derive them. */
  ghost predicate DerivedAs(st: Settings, env: Env, file: string, ad: Ad, resolved: Ad) {
    && DerivedFields <= ad.Keys && DerivedFields <= resolved.Keys
    && (Truthy(ad["id"]) ==> resolved["id"].Int? && CoerceId(ad["id"]) == Ok(resolved["id"]))
    && (!Truthy(ad["id"]) ==> resolved["id"] == ad["id"])
    && resolved["category"] == (if Truthy(ad["category"]) then LookupCategory(st.categories, ad["category"]) else ad["category"])
    && resolved["shipping_costs"] == (if Truthy(ad["shipping_costs"]) then env.roundShippingCosts(ad["shipping_costs"]) else ad["shipping_costs"])
    && ResolveImageField(ad["images"], file, env.glob, env.abspath) == Ok(resolved["images"])
  }

  /** What a resolved ad satisfies against its definition with defaults applied. */
  ghost predicate ResolvedFrom(st: Settings, env: Env, file: string, ad: Ad, resolved: Ad) {
    && KeepsOtherFields(ad, resolved)
    && SelectedBy(st, env, ad)
    && DescribedAs(st, ad, resolved)
    && Validate(resolved).None?
    && DerivedAs(st, env, file, ad, resolved)
  }

  lemma DescribeProperties(st: Settings, ad: Ad)
    requires Describe(st, ad).Ok?
    ensures var described := Describe(st, ad).value;
            described.Keys == ad.Keys && (forall k :: k in ad && k != "description" ==> described[k] == ad[k]) &&
            DescribedAs(st, ad, described)
  {
  }

  lemma DeriveProperties(st: Settings, env: Env, file: string, ad: Ad)
    requires Derive(st, env, file, ad).Ok?
    ensures var derived := Derive(st, env, file, ad).value;
            && derived.Keys == ad.Keys
            && (forall k :: k in ad && k !in DerivedFields ==> derived[k] == ad[k])
            && DerivedAs(st, env, file, ad, derived)
  {
    var withId := ResolveId(ad).value;
    var withCategory := ResolveCategory(withId, st.categories).value;
    var withCosts := ResolveShippingCosts(withCategory, env.roundShippingCosts).value;
    var derived := Derive(st, env, file, ad).value;
    assert derived == withCosts["images" := derived["images"]];
  }

  /** `DerivedAs` only looks at the derived fields other than the description. */
  lemma DerivedAsOtherDescription(st: Settings, env: Env, file: string, ad: Ad, described: Ad, resolved: Ad)
    requires DerivedAs(st, env, file, described, resolved)
    requires ad.Keys == described.Keys
    requires forall k :: k in ad && k != "description" ==> described[k] == ad[k]
    ensures DerivedAs(st, env, file, ad, resolved)
  {
    assert described["id"] == ad["id"] && described["category"] == ad["category"];
    assert described["shipping_costs"] == ad["shipping_costs"] && described["images"] == ad["images"];
  }

  /** The validator reads none of the fields derived after it. */
  lemma DerivedFieldsNotValidated(a: Ad, b: Ad)
    requires b.Keys == a.Keys
    requires forall k :: k in a && k !in DerivedFields ==> b[k] == a[k]
    ensures SameValidatedFields(a, b)
  {
    assert ValidatedKeys !! DerivedFields;
  }

  /** Every ad that survives resolution is selected, valid, carries the
      composed description and the derived fields, and keeps all other
      fields of its default-applied definition. */
  lemma ResolvedAdProperties(st: Settings, env: Env, file: string, raw: Ad)
    requires ResolveEntries(st, env, file, raw).Ok? && ResolveEntries(st, env, file, raw).value.Some?
    ensures ResolvedFrom(st, env, file, env.applyDefaults(raw), ResolveEntries(st, env, file, raw).value.value)
  {
    var ad := env.applyDefaults(raw);
    var described := Describe(st, ad).value;
    var resolved := Derive(st, env, file, described).value;
    DescribeProperties(st, ad);
    DeriveProperties(st, env, file, described);
    DerivedAsOtherDescription(st, env, file, ad, described, resolved);
    DerivedFieldsNotValidated(described, resolved);
    ValidateReadsOnlyValidatedFields(described, resolved);
  }

  /** A skipped ad is one the selection did not keep, and a skip is never an error. */
  lemma SkippedAdNotSelected(st: Settings, env: Env, file: string, raw: Ad)
    requires ResolveEntries(st, env, file, raw) == Ok(None)
    ensures var sel := Select(env.applyDefaults(raw), st.selector, st.ignoreInactive, st.checkId, env.parseDatetime, env.now);
            sel.Ok? && sel.value != Keep
  {
  }

  // The whole load (lines 226-319)

  /** One entry of the returned list: the file, the resolved definition and
      the definition as loaded. */
  datatype Loaded = Loaded(file: string, ad: Ad, orig: Ad)

  /** The list the loop over `sorted(ad_files)` builds, with `resolve` for the
      resolution of one file and `load` for `load_dict`, or its first failure. */
  ghost function LoadAll(resolve: string -> Result<Option<Ad>>, load: string -> Ad, files: seq<string>): Result<seq<Loaded>>
    decreases |files|
  {
    if |files| == 0 then Ok([])
    else
      var n := |files| - 1;
      var before :- LoadAll(resolve, load, files[..n]);
      var resolved :- resolve(files[n]);
      if resolved.Some? then Ok(before + [Loaded(files[n], resolved.value, load(files[n]))])
      else Ok(before)
  }

  /** The resolution `load_ads` applies to each file. */
  ghost function Resolver(st: Settings, env: Env): string -> Result<Option<Ad>> {
    f => ResolveAd(st, env, f)
  }

  /** `load_ads`: nothing when no file was discovered, otherwise the loop
      over the discovered files in ascending order. */
  ghost function LoadAds(st: Settings, env: Env, patterns: seq<string>, dataRoot: string): Result<seq<Loaded>> {
    var files := Discovered(patterns, dataRoot, env);
    if files == {} then Ok([]) else LoadAll(Resolver(st, env), env.loadAd, SortedSeq(files))
  }

  /** One more file: the list grows by that file's entry when resolution
      keeps it, and stops at its failure. */
  lemma LoadAllStep(resolve: string -> Result<Option<Ad>>, load: string -> Ad, files: seq<string>, i: nat)
    requires i < |files| && LoadAll(resolve, load, files[..i]).Ok?
    ensures resolve(files[i]).Err? ==> LoadAll(resolve, load, files[..i + 1]) == Err(resolve(files[i]).error)
    ensures resolve(files[i]).Ok? ==>
              LoadAll(resolve, load, files[..i + 1]) ==
              Ok(LoadAll(resolve, load, files[..i]).value +
                 if resolve(files[i]).value.Some? then [Loaded(files[i], resolve(files[i]).value.value, load(files[i]))] else [])
  {
    var prefix := files[..i + 1];
    assert prefix[..i] == files[..i] && prefix[i] == files[i] && |prefix| - 1 == i;
    var before := LoadAll(resolve, load, files[..i]).value;
    assert before + [] == before;
  }

  lemma {:induction false} LoadAllErrPrefix(resolve: string -> Result<Option<Ad>>, load: string -> Ad, files: seq<string>, k: nat)
    requires 0 < k <= |files| && LoadAll(resolve, load, files[..k]).Err?
    ensures LoadAll(resolve, load, files) == LoadAll(resolve, load, files[..k])
    decreases |files|
  {
    if k == |files| {
      assert files[..k] == files;
    } else {
      var n := |files| - 1;
      assert files[..n][..k] == files[..k];
      LoadAllErrPrefix(resolve, load, files[..n], k);
    }
  }

  /** A successful load: every file resolved without failure; the entries are
      exactly the files resolution kept, each with its resolved definition
      and its definition as loaded, in the order of `files`. */
  lemma {:induction false} LoadAllContents(resolve: string -> Result<Option<Ad>>, load: string -> Ad, files: seq<string>)
    requires LoadAll(resolve, load, files).Ok?
    ensures forall f :: f in files ==> resolve(f).Ok?
    ensures var loaded := LoadAll(resolve, load, files).value;
            forall i :: 0 <= i < |loaded| ==>
              loaded[i].file in files &&
              resolve(loaded[i].file) == Ok(Some(loaded[i].ad)) &&
              loaded[i].orig == load(loaded[i].file)
    ensures var loaded := LoadAll(resolve, load, files).value;
            forall f :: f in files && resolve(f).value.Some? ==>
              exists i :: 0 <= i < |loaded| && loaded[i].file == f
    decreases |files|
  {
    if |files| > 0 {
      var n := |files| - 1;
      var init := files[..n];
      LoadAllContents(resolve, load, init);
      assert files == init + [files[n]];
      var loaded := LoadAll(resolve, load, files).value;
      var before := LoadAll(resolve, load, init).value;
      forall f | f in files && resolve(f).value.Some?
        ensures exists i :: 0 <= i < |loaded| && loaded[i].file == f
      {
        if f in init {
          var i :| 0 <= i < |before| && before[i].file == f;
          assert loaded[i] == before[i];
        } else {
          assert f == files[n];
          assert loaded[|loaded| - 1].file == f;
        }
      }
    }
  }

  /** The entries keep the order of `files`: strictly ascending input gives
      strictly ascending entries. */
  lemma {:induction false} LoadAllSorted(resolve: string -> Result<Option<Ad>>, load: string -> Ad, files: seq<string>)
    requires StrictlySorted(files) && LoadAll(resolve, load, files).Ok?
    ensures var loaded := LoadAll(resolve, load, files).value;
            forall i, j :: 0 <= i < j < |loaded| ==> Less(loaded[i].file, loaded[j].file)
    decreases |files|
  {
    if |files| > 0 {
      var n := |files| - 1;
      var init := files[..n];
      assert StrictlySorted(init);
      LoadAllSorted(resolve, load, init);
      LoadAllContents(resolve, load, init);
      var before := LoadAll(resolve, load, init).value;
      forall i | 0 <= i < |before|
        ensures Less(before[i].file, files[n])
      {
        var k :| 0 <= k < n && init[k] == before[i].file;
      }
    }
  }

  /** What `load_ads` returns: entries in strictly ascending path order, each
      for a discovered file (so never the absolute form of a match ending in
      `ad_fields.yaml`),
      each with its definition as loaded and its resolved definition meeting
      `ResolvedFrom`; and every discovered file the selection keeps is there. */
  lemma LoadAdsProperties(st: Settings, env: Env, patterns: seq<string>, dataRoot: string)
    requires LoadAds(st, env, patterns, dataRoot).Ok?
    ensures var loaded := LoadAds(st, env, patterns, dataRoot).value;
            && (forall i, j :: 0 <= i < j < |loaded| ==> Less(loaded[i].file, loaded[j].file))
            && (forall i :: 0 <= i < |loaded| ==>
                  && loaded[i].file in Discovered(patterns, dataRoot, env)
                  && loaded[i].orig == env.loadAd(loaded[i].file)
                  && ResolvedFrom(st, env, loaded[i].file, env.applyDefaults(loaded[i].orig), loaded[i].ad))
            && (forall f :: f in Discovered(patterns, dataRoot, env) ==>
                  && ResolveAd(st, env, f).Ok?
                  && (ResolveAd(st, env, f).value.Some? ==> exists i :: 0 <= i < |loaded| && loaded[i].file == f))
  {
    var files := Discovered(patterns, dataRoot, env);
    if files != {} {
      var sorted := SortedSeq(files);
      var resolve := Resolver(st, env);
      LoadAllSorted(resolve, env.loadAd, sorted);
      LoadAllContents(resolve, env.loadAd, sorted);
      var loaded := LoadAll(resolve, env.loadAd, sorted).value;
      forall i | 0 <= i < |loaded|
        ensures loaded[i].file in files
        ensures ResolvedFrom(st, env, loaded[i].file, env.applyDefaults(loaded[i].orig), loaded[i].ad)
      {
        assert loaded[i].file in Elems(sorted);
        ResolvedAdProperties(st, env, loaded[i].file, env.loadAd(loaded[i].file));
      }
      forall f | f in files
        ensures f in sorted
      {
        assert f in Elems(sorted);
      }
    }
  }

  /** The resolution steps of lines 230-310 for one ad, on `cfg`, a fresh copy
      of the loaded definition `raw`; reports whether the ad is kept. */
  method ResolveAdConfig(st: Settings, env: Env, file: string, raw: Ad, cfg: AdConfig) returns (r: Result<bool>)
    requires cfg.entries == raw
    modifies cfg
    ensures r.Ok? <==> ResolveEntries(st, env, file, raw).Ok?
    ensures r.Err? ==> r.error == ResolveEntries(st, env, file, raw).error
    ensures r.Ok? ==> (r.value <==> ResolveEntries(st, env, file, raw).value.Some?)
    ensures r == Ok(true) ==> cfg.entries == ResolveEntries(st, env, file, raw).value.value
  {
    cfg.entries := env.applyDefaults(cfg.entries);
    var decision := Select(cfg.entries, st.selector, st.ignoreInactive, st.checkId, env.parseDatetime, env.now);
    if decision.Err? {
      return Err(decision.error);
    }
    if decision.value != Keep {
      return Ok(false);
    }
    var body := Get(cfg.entries, "description");
    if body.Err? {
      return Err(body.error);
    }
    var description := ComposeDescription(st.prefix, body.value, st.suffix);
    if description.Err? {
      return Err(description.error);
    }
    cfg.entries := cfg.entries["description" := Str(description.value)];
    var failure := Validate(cfg.entries);
    if failure.Some? {
      return Err(failure.value);
    }
    var step := ResolveId(cfg.entries);
    if step.Err? {
      return Err(step.error);
    }
    cfg.entries := step.value;
    step := ResolveCategory(cfg.entries, st.categories);
    if step.Err? {
      return Err(step.error);
    }
    cfg.entries := step.value;
    step := ResolveShippingCosts(cfg.entries, env.roundShippingCosts);
    if step.Err? {
      return Err(step.error);
    }
    cfg.entries := step.value;
    var images := Get(cfg.entries, "images");
    if images.Err? {
      return Err(images.error);
    }
    var resolvedImages := ResolveImages(images.value, file, env.glob, env.abspath);
    if resolvedImages.Err? {
      return Err(resolvedImages.error);
    }
    cfg.entries := cfg.entries["images" := resolvedImages.value];
    return Ok(true);
  }
}
