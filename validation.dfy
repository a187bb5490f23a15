/** The validator of `load_ads` (kleinanzeigen_bot/__init__.py, lines
    265-285), written as an ordered list of rules of which the first broken
    one is reported. */
module Validation {
  import opened Values

  datatype Rule =
    | OneOf(path: seq<string>, allowed: set<string>)   // assert_one_of
    | MinLen(path: seq<string>, minLen: nat)           // assert_min_len
    | HasValue(path: seq<string>)                      // assert_has_value
    | PriceMatchesType                                 // the GIVE_AWAY / FIXED price rules

  const AdTypes: set<string> := {"OFFER", "WANTED"}
  const PriceTypes: set<string> := {"FIXED", "NEGOTIABLE", "GIVE_AWAY", "NOT_APPLICABLE"}
  const ShippingTypes: set<string> := {"PICKUP", "SHIPPING", "NOT_APPLICABLE"}
  const MinTitleLength: nat := 10

  /** The rules in the order the source checks them. */
  const Rules: seq<Rule> := [
    OneOf(["type"], AdTypes),
    MinLen(["title"], MinTitleLength),
    HasValue(["description"]),
    OneOf(["price_type"], PriceTypes),
    PriceMatchesType,
    OneOf(["shipping_type"], ShippingTypes),
    HasValue(["contact", "name"]),
    HasValue(["republication_interval"])
  ]

  /** Python's `len(v)`, which raises TypeError on None, numbers and bools. */
  function Length(v: Value): Option<nat> {
    match v
    case Str(s) => Some(|s|)
    case List(xs) => Some(|xs|)
    case Dict(m) => Some(|m|)
    case _ => None
  }

  /** The failure a single rule reports, if any. */
  function Check(rule: Rule, ad: Ad): Option<Error> {
    match rule
    case OneOf(path, allowed) =>
      // membership in a set hashes the value: a list or dict raises TypeError
      var v := SafeGet(ad, path);
      if v.List? || v.Dict? then Some(TypeMismatch(path))
      else if v.Str? && v.s in allowed then None else Some(NotOneOf(path))
    case MinLen(path, n) =>
      var len := Length(SafeGet(ad, path));
      if len.None? then Some(TypeMismatch(path))
      else if len.value >= n then None else Some(TooShort(path, n))
    case HasValue(path) =>
      if Truthy(SafeGet(ad, path)) then None else Some(NotSpecified(path))
    case PriceMatchesType =>
      var priceType := SafeGet(ad, ["price_type"]);
      if priceType == Str("GIVE_AWAY") then
        if Truthy(SafeGet(ad, ["price"])) then Some(PriceWithGiveAway) else None
      else if priceType == Str("FIXED") then
        if Truthy(SafeGet(ad, ["price"])) then None else Some(NotSpecified(["price"]))
      else None
  }

  /** Runs the rules in order and reports the first failure. */
  function FirstFailure(rules: seq<Rule>, ad: Ad): (r: Option<Error>)
    ensures r.None? <==> forall i :: 0 <= i < |rules| ==> Check(rules[i], ad).None?
    ensures r.Some? ==> exists i :: 0 <= i < |rules| && Check(rules[i], ad) == r &&
                                    forall j :: 0 <= j < i ==> Check(rules[j], ad).None?
    decreases |rules|
  {
    if |rules| == 0 then None
    else
      var here := Check(rules[0], ad);
      if here.Some? then here
      else
        var rest := FirstFailure(rules[1..], ad);
        assert forall i :: 1 <= i < |rules| ==> rules[i] == rules[1..][i - 1];
        rest
  }

  function Validate(ad: Ad): Option<Error> {
    FirstFailure(Rules, ad)
  }

  /** An ad that passes the validator meets every rule of the source. */
  lemma ValidAdMeetsRules(ad: Ad)
    requires Validate(ad).None?
    ensures SafeGet(ad, ["type"]) in {Str("OFFER"), Str("WANTED")}
    ensures Length(SafeGet(ad, ["title"])).Some? && Length(SafeGet(ad, ["title"])).value >= 10
    ensures Truthy(SafeGet(ad, ["description"]))
    ensures SafeGet(ad, ["price_type"]) in {Str("FIXED"), Str("NEGOTIABLE"), Str("GIVE_AWAY"), Str("NOT_APPLICABLE")}
    ensures SafeGet(ad, ["price_type"]) == Str("GIVE_AWAY") ==> !Truthy(SafeGet(ad, ["price"]))
    ensures SafeGet(ad, ["price_type"]) == Str("FIXED") ==> Truthy(SafeGet(ad, ["price"]))
    ensures SafeGet(ad, ["shipping_type"]) in {Str("PICKUP"), Str("SHIPPING"), Str("NOT_APPLICABLE")}
    ensures Truthy(SafeGet(ad, ["contact", "name"]))
    ensures Truthy(SafeGet(ad, ["republication_interval"]))
  {
    assert Check(Rules[0], ad).None?;
    assert Check(Rules[1], ad).None?;
    assert Check(Rules[2], ad).None?;
    assert Check(Rules[3], ad).None?;
    assert Check(Rules[4], ad).None?;
    assert Check(Rules[5], ad).None?;
    assert Check(Rules[6], ad).None?;
    assert Check(Rules[7], ad).None?;
  }

  /** For a GIVE_AWAY ad whose earlier fields are fine, a price is what the
      validator reports; without one the price rule is never the failure. */
  lemma GiveAwayPriceRule(ad: Ad)
    requires SafeGet(ad, ["price_type"]) == Str("GIVE_AWAY")
    requires forall i :: 0 <= i < 4 ==> Check(Rules[i], ad).None?
    ensures Truthy(SafeGet(ad, ["price"])) <==> Validate(ad) == Some(PriceWithGiveAway)
  {
    NothingLaterReportsGiveAway(ad);
    assert Rules[4] == PriceMatchesType;
    FirstFailureAt(Rules, 4, ad, PriceWithGiveAway);
  }

  /** When the rules before `k` pass and none after it can report `e`, the
      validator reports `e` exactly when rule `k` does. */
  lemma FirstFailureAt(rules: seq<Rule>, k: nat, ad: Ad, e: Error)
    requires k < |rules|
    requires forall i :: 0 <= i < k ==> Check(rules[i], ad).None?
    requires forall i :: k < i < |rules| ==> Check(rules[i], ad) != Some(e)
    ensures FirstFailure(rules, ad) == Some(e) <==> Check(rules[k], ad) == Some(e)
  {
    FirstFailureAfterPassing(rules, k, ad);
    var rest := rules[k..];
    FirstFailureStep(rest, ad);
    var later := FirstFailure(rest[1..], ad);
    if later.Some? {
      var i :| 0 <= i < |rest[1..]| && Check(rest[1..][i], ad) == later;
      assert rest[1..][i] == rules[k + 1 + i];
    }
  }

  /** The first rule's failure, or else the first failure of the rest. */
  lemma FirstFailureStep(rules: seq<Rule>, ad: Ad)
    requires |rules| > 0
    ensures FirstFailure(rules, ad) == if Check(rules[0], ad).Some? then Check(rules[0], ad) else FirstFailure(rules[1..], ad)
  {
  }

  /** Rules that all pass can be skipped. */
  lemma {:induction false} FirstFailureAfterPassing(rules: seq<Rule>, k: nat, ad: Ad)
    requires k <= |rules|
    requires forall i :: 0 <= i < k ==> Check(rules[i], ad).None?
    ensures FirstFailure(rules, ad) == FirstFailure(rules[k..], ad)
    decreases k
  {
    if k > 0 {
      assert rules[1..][k - 1..] == rules[k..];
      FirstFailureAfterPassing(rules[1..], k - 1, ad);
    }
  }

  /** No rule after the price rule can report PriceWithGiveAway. */
  lemma NothingLaterReportsGiveAway(ad: Ad)
    ensures forall i :: 4 < i < |Rules| ==> Check(Rules[i], ad) != Some(PriceWithGiveAway)
  {
    assert Rules[5] == OneOf(["shipping_type"], ShippingTypes);
    assert Rules[6] == HasValue(["contact", "name"]);
    assert Rules[7] == HasValue(["republication_interval"]);
  }

  /** The first keys of every rule's paths: only these fields matter. */
  const ValidatedKeys: set<string> :=
    {"type", "title", "description", "price_type", "price", "shipping_type", "contact", "republication_interval"}

  /** Two ads with the same validated fields. */
  ghost predicate SameValidatedFields(a: Ad, b: Ad) {
    forall k :: k in ValidatedKeys ==> (k in a <==> k in b) && (k in a ==> a[k] == b[k])
  }

  lemma SafeGetSameFields(a: Ad, b: Ad, path: seq<string>)
    requires SameValidatedFields(a, b) && |path| > 0 && path[0] in ValidatedKeys
    ensures SafeGet(a, path) == SafeGet(b, path)
  {
  }

  /** The validator reads only the validated fields, so resolving the id,
      the category, the shipping costs or the images cannot change its verdict. */
  lemma {:induction false} ValidateReadsOnlyValidatedFields(a: Ad, b: Ad)
    requires SameValidatedFields(a, b)
    ensures Validate(a) == Validate(b)
  {
    forall i | 0 <= i < |Rules|
      ensures Check(Rules[i], a) == Check(Rules[i], b)
    {
      SafeGetSameFields(a, b, ["type"]);
      SafeGetSameFields(a, b, ["title"]);
      SafeGetSameFields(a, b, ["description"]);
      SafeGetSameFields(a, b, ["price_type"]);
      SafeGetSameFields(a, b, ["price"]);
      SafeGetSameFields(a, b, ["shipping_type"]);
      SafeGetSameFields(a, b, ["contact", "name"]);
      SafeGetSameFields(a, b, ["republication_interval"]);
    }
    SameChecksSameFailure(Rules, a, b);
  }

  lemma {:induction false} SameChecksSameFailure(rules: seq<Rule>, a: Ad, b: Ad)
    requires forall i :: 0 <= i < |rules| ==> Check(rules[i], a) == Check(rules[i], b)
    ensures FirstFailure(rules, a) == FirstFailure(rules, b)
    decreases |rules|
  {
    if |rules| > 0 {
      assert forall i :: 0 <= i < |rules[1..]| ==> rules[1..][i] == rules[i + 1];
      SameChecksSameFailure(rules[1..], a, b);
    }
  }
}
