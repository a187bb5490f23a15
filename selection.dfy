/** Which ads `load_ads` keeps for this run: the inactive filter, the `new`
    selector and the `due` selector with its republication window
    (kleinanzeigen_bot/__init__.py, lines 235-259). Timestamps are seconds;
    `parse_datetime` is a parameter. */
module Selection {
  import opened Values

  const SecondsPerDay: int := 86400

  /** `(now - last).days`: whole days elapsed, rounded down as
      `timedelta.days` does (also for a last update in the future). */
  function AgeDays(now: int, last: int): (d: int)
    ensures d * SecondsPerDay <= now - last < (d + 1) * SecondsPerDay
  {
    (now - last) / SecondsPerDay
  }

  datatype Decision = Keep | SkipInactive | SkipNotNew | SkipNotDue(ageDays: int)

  /** The last-published time: `updated_on` when set, else `created_on`
      when set, else none (the ad was never published). */
  function LastPublished(ad: Ad, parse: Value -> int): (r: Result<Option<int>>)
    ensures r.Ok? && r.value.Some? ==>
      "updated_on" in ad && (if Truthy(ad["updated_on"]) then r.value.value == parse(ad["updated_on"])
                             else "created_on" in ad && Truthy(ad["created_on"]) && r.value.value == parse(ad["created_on"]))
    ensures r.Ok? && r.value.None? ==>
      "updated_on" in ad && !Truthy(ad["updated_on"]) && "created_on" in ad && !Truthy(ad["created_on"])
    ensures r.Err? <==> "updated_on" !in ad || (!Truthy(ad["updated_on"]) && "created_on" !in ad)
  {
    var updated :- Get(ad, "updated_on");
    if Truthy(updated) then Ok(Some(parse(updated)))
    else
      var created :- Get(ad, "created_on");
      if Truthy(created) then Ok(Some(parse(created))) else Ok(None)
  }

  /** `age <= ad_cfg["republication_interval"]`: Python compares an int with
      an int or a bool and raises TypeError for anything else. */
  function WithinInterval(age: int, interval: Value): (r: Result<bool>)
    ensures interval.Int? ==> r == Ok(age <= interval.i)
    ensures interval.Bool? ==> r == Ok(age <= (if interval.b then 1 else 0))
    ensures r.Err? <==> !(interval.Int? || interval.Bool?)
  {
    match interval
    case Int(n) => Ok(age <= n)
    case Bool(b) => Ok(age <= (if b then 1 else 0))
    case _ => Err(TypeMismatch(["republication_interval"]))
  }

  /** The selection steps of `load_ads`, in the source's order. */
  function Select(ad: Ad, selector: string, ignoreInactive: bool, checkId: bool,
                  parse: Value -> int, now: int): (r: Result<Decision>)
    ensures r == Ok(Keep) && ignoreInactive ==> "active" in ad && Truthy(ad["active"])
    ensures r == Ok(Keep) && selector == "new" && checkId ==> "id" in ad && !Truthy(ad["id"])
    ensures r == Ok(Keep) && selector == "due" ==> Due(ad, parse, now)
    ensures ignoreInactive && "active" in ad && !Truthy(ad["active"]) ==> r == Ok(SkipInactive)
  {
    var active :- if ignoreInactive then Get(ad, "active") else Ok(Bool(true));
    if !Truthy(active) then Ok(SkipInactive)
    else
      var id :- if selector == "new" then Get(ad, "id") else Ok(Null);
      if selector == "new" && Truthy(id) && checkId then Ok(SkipNotNew)
      else if selector == "due" then
        var last :- LastPublished(ad, parse);
        if last.None? then Ok(Keep)
        else
          var age := AgeDays(now, last.value);
          var interval :- Get(ad, "republication_interval");
          var within :- WithinInterval(age, interval);
          if within then Ok(SkipNotDue(age)) else Ok(Keep)
      else Ok(Keep)
  }

  /** An ad is due when it was never published, or when more whole days than
      its republication interval passed since it was last published. */
  ghost predicate Due(ad: Ad, parse: Value -> int, now: int) {
    var last := LastPublished(ad, parse);
    last.Ok? &&
    (last.value.None? ||
     ("republication_interval" in ad &&
      var within := WithinInterval(AgeDays(now, last.value.value), ad["republication_interval"]);
      within.Ok? && !within.value))
  }

  /** The keys the selection reads, present and of the kinds it expects. */
  ghost predicate SelectionFieldsPresent(ad: Ad) {
    && "active" in ad && "id" in ad && "updated_on" in ad && "created_on" in ad
    && "republication_interval" in ad && ad["republication_interval"].Int?
  }

  /** With the fields present, the selection keeps exactly the active ads
      that pass the selector: `new` drops ads with an id, `due` keeps the due
      ones, and every other selector (`all`, a list of ids) keeps all. */
  lemma SelectKeepsExactly(ad: Ad, selector: string, ignoreInactive: bool, checkId: bool,
                           parse: Value -> int, now: int)
    requires SelectionFieldsPresent(ad)
    ensures Select(ad, selector, ignoreInactive, checkId, parse, now).Ok?
    ensures Select(ad, selector, ignoreInactive, checkId, parse, now) == Ok(Keep) <==>
      && (ignoreInactive ==> Truthy(ad["active"]))
      && (selector == "new" && checkId ==> !Truthy(ad["id"]))
      && (selector == "due" ==> Due(ad, parse, now))
  {
  }

  /** The due window in whole days: kept iff the days since the last
      publication exceed the interval; an ad never published is always kept. */
  lemma DueWindow(ad: Ad, parse: Value -> int, now: int, last: int, interval: int)
    requires SelectionFieldsPresent(ad) && ad["republication_interval"] == Int(interval)
    requires LastPublished(ad, parse) == Ok(Some(last))
    ensures Due(ad, parse, now) <==> now - last >= (interval + 1) * SecondsPerDay
  {
    var d := AgeDays(now, last);
    if d > interval {
      assert (d) * SecondsPerDay >= (interval + 1) * SecondsPerDay;
    } else {
      assert (d + 1) * SecondsPerDay <= (interval + 1) * SecondsPerDay;
    }
  }
}
