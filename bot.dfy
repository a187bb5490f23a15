/** The bot object (kleinanzeigen_bot/__init__.py, class
    `KleinanzeigenBot`): its configuration, the category table it builds in
    `load_config`, `load_ads`, and the bookkeeping of `delete_ad` and
    `publish_ad` on the ad definitions `load_ads` hands out. */
module Bot {
  import opened Values
  import opened Strings
  import opened Ordering
  import opened Fields
  import opened Loader
  import opened Publish

  /** The parts of the configuration the model reads: `ad_files`, the
      description prefix and suffix of `ad_defaults`, and `categories`. */
  datatype Config = Config(
    adFiles: seq<string>,
    descriptionPrefix: Value,
    descriptionSuffix: Value,
    categories: map<string, string>)

  /** One entry of the list `load_ads` returns: the file, the resolved
      definition and the definition as loaded. */
  datatype LoadedAd = LoadedAd(file: string, cfg: AdConfig, orig: AdConfig)

  /** One iteration of the loop of `load_ads` (lines 230-317): the file's
      definition is loaded into a new object and resolved on a second new
      copy of it; the entry is there when the selection keeps the ad. */
  method LoadOne(st: Settings, env: Env, file: string) returns (r: Result<Option<LoadedAd>>)
    ensures r.Ok? <==> ResolveAd(st, env, file).Ok?
    ensures r.Err? ==> r.error == ResolveAd(st, env, file).error
    ensures r.Ok? ==> (r.value.Some? <==> ResolveAd(st, env, file).value.Some?)
    ensures r.Ok? && r.value.Some? ==>
              var entry := r.value.value;
              && entry.file == file
              && entry.cfg.entries == ResolveAd(st, env, file).value.value
              && entry.orig.entries == env.loadAd(file)
              && fresh(entry.cfg) && fresh(entry.orig) && entry.cfg != entry.orig
  {
    var raw := env.loadAd(file);
    var orig := new AdConfig(raw);
    var cfg := new AdConfig(orig.entries);
    var kept := ResolveAdConfig(st, env, file, raw, cfg);
    if kept.Err? {
      return Err(kept.error);
    }
    if !kept.value {
      return Ok(None);
    }
    return Ok(Some(LoadedAd(file, cfg, orig)));
  }

  /** `resolve` is the resolution `load_ads` applies with `st` and `env`;
      the equation is used only where `ResolveAd` itself is mentioned. */
  ghost predicate ResolvesAs(st: Settings, env: Env, resolve: string -> Result<Option<Ad>>) {
    forall f {:trigger ResolveAd(st, env, f)} :: resolve(f) == ResolveAd(st, env, f)
  }

  /** The step of the loop of `load_ads` for the `i`-th sorted file: the
      list built so far grows as `LoadAll` says, or the loop ends with its
      error. */
  method LoadNext(st: Settings, env: Env, ghost resolve: string -> Result<Option<Ad>>,
                  sorted: seq<string>, i: nat, ghost before: seq<Loaded>)
    returns (r: Result<Option<LoadedAd>>)
    requires ResolvesAs(st, env, resolve)
    requires i < |sorted| && LoadAll(resolve, env.loadAd, sorted[..i]) == Ok(before)
    ensures var after := LoadAll(resolve, env.loadAd, sorted[..i + 1]);
            && (r.Ok? <==> after.Ok?)
            && (r.Err? ==> r.error == after.error)
            && (r == Ok(None) ==> after == Ok(before))
            && (r.Ok? && r.value.Some? ==>
                  var entry := r.value.value;
                  && after == Ok(before + [Loaded(entry.file, entry.cfg.entries, entry.orig.entries)])
                  && fresh(entry.cfg) && fresh(entry.orig) && entry.cfg != entry.orig)
  {
    r := LoadOne(st, env, sorted[i]);
    LoadAllStep(resolve, env.loadAd, sorted, i);
    if r == Ok(None) {
      assert before + [] == before;
    }
  }

  /** The loop of `load_ads` over the sorted files (lines 230-317): the
      entries mirror `LoadAll` with the resolution of `load_ads`, each made
      of two new objects. */
  method LoadFiles(st: Settings, env: Env, ghost resolve: string -> Result<Option<Ad>>, sorted: seq<string>)
    returns (r: Result<seq<LoadedAd>>)
    requires ResolvesAs(st, env, resolve)
    ensures var spec := LoadAll(resolve, env.loadAd, sorted);
            && (r.Ok? <==> spec.Ok?)
            && (r.Err? ==> r.error == spec.error)
            && (r.Ok? ==> |r.value| == |spec.value| &&
                          forall i :: 0 <= i < |r.value| ==>
                            && r.value[i].file == spec.value[i].file
                            && r.value[i].cfg.entries == spec.value[i].ad
                            && r.value[i].orig.entries == spec.value[i].orig)
    ensures r.Ok? ==> forall i :: 0 <= i < |r.value| ==>
                        fresh(r.value[i].cfg) && fresh(r.value[i].orig) && r.value[i].cfg != r.value[i].orig
  {
    var ads: seq<LoadedAd> := [];
    ghost var spec: seq<Loaded> := [];
    var i := 0;
    while i < |sorted|
      invariant 0 <= i <= |sorted|
      invariant LoadAll(resolve, env.loadAd, sorted[..i]) == Ok(spec)
      invariant |ads| == |spec|
      invariant forall k :: 0 <= k < |ads| ==>
                  && ads[k].file == spec[k].file
                  && ads[k].cfg.entries == spec[k].ad
                  && ads[k].orig.entries == spec[k].orig
      invariant forall k :: 0 <= k < |ads| ==> fresh(ads[k].cfg) && fresh(ads[k].orig) && ads[k].cfg != ads[k].orig
    {
      var one := LoadNext(st, env, resolve, sorted, i, spec);
      if one.Err? {
        LoadAllErrPrefix(resolve, env.loadAd, sorted, i + 1);
        return Err(one.error);
      }
      if one.value.Some? {
        var entry := one.value.value;
        ads := ads + [entry];
        spec := spec + [Loaded(entry.file, entry.cfg.entries, entry.orig.entries)];
      }
      i := i + 1;
    }
    assert sorted[..i] == sorted;
    return Ok(ads);
  }

  class KleinanzeigenBot {
    var configFilePath: string
    var config: Config
    var categories: map<string, string>
    var adsSelector: string
    var deleteOldAds: bool

    /** Lines 31-51: an empty configuration and category table, selector
        `due`, old ads deleted before publishing. */
    constructor(configFilePath: string)
      ensures this.configFilePath == configFilePath
      ensures config == Config([], Null, Null, map[]) && categories == map[]
      ensures adsSelector == "due" && deleteOldAds
    {
      this.configFilePath := configFilePath;
      config := Config([], Null, Null, map[]);
      categories := map[];
      adsSelector := "due";
      deleteOldAds := true;
    }

    /** Lines 332-334: the bundled categories, updated with the configured
        ones when there are any. */
    method LoadCategories(bundled: map<string, string>)
      modifies this`categories
      ensures categories == Overlay(bundled, config.categories)
    {
      categories := bundled;
      if config.categories != map[] {
        categories := categories + config.categories;
      }
    }

    /** The settings `load_ads` resolves each ad with. */
    function CurrentSettings(ignoreInactive: bool, checkId: bool): Settings
      reads this
    {
      Settings(adsSelector, ignoreInactive, checkId, config.descriptionPrefix, config.descriptionSuffix, categories)
    }

    /** Lines 213-218: the absolute paths of all matches of the configured
        patterns, searched from the configuration's directory, except those
        ending in `ad_fields.yaml`. */
    method DiscoverAdFiles(env: Env) returns (files: set<string>)
      ensures files == Discovered(config.adFiles, Dirname(configFilePath), env)
    {
      files := {};
      var dataRoot := Dirname(configFilePath);
      var patterns := config.adFiles;
      var i := 0;
      while i < |patterns|
        invariant 0 <= i <= |patterns|
        invariant files == Discovered(patterns[..i], dataRoot, env)
      {
        var matches := env.glob(patterns[i], dataRoot);
        ghost var before := files;
        var j := 0;
        while j < |matches|
          invariant 0 <= j <= |matches|
          invariant files == before + PatternAdFiles(matches[..j], dataRoot, env.abspath)
        {
          PatternAdFilesStep(matches, j, dataRoot, env.abspath);
          if !EndsWith(matches[j], AdFieldsFile) {
            files := files + {env.abspath(matches[j], dataRoot)};
          }
          j := j + 1;
        }
        assert matches[..j] == matches;
        assert patterns[..i + 1][..i] == patterns[..i];
        i := i + 1;
      }
      assert patterns[..i] == patterns;
    }

    /** `load_ads` (lines 210-319). The entries mirror `Loader.LoadAds`, whose
        properties `LoadAdsProperties` states; each entry holds two new
        definitions, so the resolved one and the one as loaded never alias. */
    method LoadAds(ignoreInactive: bool, checkId: bool, env: Env) returns (r: Result<seq<LoadedAd>>)
      ensures var spec := Loader.LoadAds(CurrentSettings(ignoreInactive, checkId), env, config.adFiles, Dirname(configFilePath));
              && (r.Ok? <==> spec.Ok?)
              && (r.Err? ==> r.error == spec.error)
              && (r.Ok? ==> |r.value| == |spec.value| &&
                            forall i :: 0 <= i < |r.value| ==>
                              && r.value[i].file == spec.value[i].file
                              && r.value[i].cfg.entries == spec.value[i].ad
                              && r.value[i].orig.entries == spec.value[i].orig)
      ensures r.Ok? ==> forall i :: 0 <= i < |r.value| ==>
                          fresh(r.value[i].cfg) && fresh(r.value[i].orig) && r.value[i].cfg != r.value[i].orig
    {
      var files := DiscoverAdFiles(env);
      if files == {} {
        return Ok([]);
      }
      var sorted := SortedFromSet(files);
      var st := CurrentSettings(ignoreInactive, checkId);
      r := LoadFiles(st, env, Resolver(st, env), sorted);
    }

    /** `delete_ad` on the resolved definition (line 429): the id is cleared
        and nothing else changes; the call always reports success. The
        source first reads the title (line 401), which every definition
        `load_ads` hands out has, since the validator checks it. */
    method DeleteAd(cfg: AdConfig) returns (deleted: bool)
      modifies cfg
      ensures cfg.entries == ClearId(old(cfg.entries))
      ensures deleted
    {
      cfg.entries := cfg.entries["id" := Null];
      deleted := true;
    }

    /** `publish_ad`'s bookkeeping as written (lines 448-449 and 576-583):
        the id of `cfg` is cleared by `delete_ad` before it is consulted for
        the first-publication check. */
    method PublishAdAsWritten(cfg: AdConfig, orig: AdConfig, stamp: string, adId: int) returns (r: Result<bool>)
      requires cfg != orig
      modifies cfg, orig
      ensures cfg.entries == (if deleteOldAds then ClearId(old(cfg.entries)) else old(cfg.entries))
      ensures r == FirstPublicationAsWritten(deleteOldAds, old(cfg.entries))
      ensures r.Ok? ==> orig.entries == WriteBack(old(orig.entries), r.value, stamp, adId)
      ensures r.Err? ==> orig.entries == old(orig.entries)["updated_on" := Str(stamp)]
    {
      if deleteOldAds {
        var _ := DeleteAd(cfg);
      }
      orig.entries := orig.entries["updated_on" := Str(stamp)];
      var first := IsFirstPublication(cfg.entries);
      if first.Err? {
        return first;
      }
      if first.value {
        orig.entries := orig.entries["created_on" := orig.entries["updated_on"]];
      }
      orig.entries := orig.entries["id" := Int(adId)];
      return first;
    }

    /** `publish_ad`'s bookkeeping with the first-publication check made on
        the definition as resolved, before `delete_ad` clears its id: an ad
        that had an id never receives a new `created_on`. */
    method PublishAd(cfg: AdConfig, orig: AdConfig, stamp: string, adId: int) returns (r: Result<bool>)
      requires cfg != orig
      modifies cfg, orig
      ensures cfg.entries == (if deleteOldAds then ClearId(old(cfg.entries)) else old(cfg.entries))
      ensures r == IsFirstPublication(old(cfg.entries))
      ensures r == Ok(true) ==> "id" in old(cfg.entries) && !Truthy(old(cfg.entries)["id"])
      ensures r.Ok? ==> orig.entries == WriteBack(old(orig.entries), r.value, stamp, adId)
      ensures r.Err? ==> orig.entries == old(orig.entries)["updated_on" := Str(stamp)]
    {
      var first := IsFirstPublication(cfg.entries);
      if deleteOldAds {
        var _ := DeleteAd(cfg);
      }
      orig.entries := orig.entries["updated_on" := Str(stamp)];
      if first.Err? {
        return first;
      }
      if first.value {
        orig.entries := orig.entries["created_on" := orig.entries["updated_on"]];
      }
      orig.entries := orig.entries["id" := Int(adId)];
      return first;
    }
  }
}
