/** The derived fields `load_ads` writes into the resolved ad: the composed
    description (kleinanzeigen_bot/__init__.py, lines 223-224 and 261-262),
    the id as an integer (line 287-288), the category code (lines 290-291,
    with its table from lines 332-334) and the rounded shipping costs
    (lines 293-294, the rounding itself being a parameter). */
module Fields {
  import opened Values

  const MaxDescriptionLength: nat := 4000

  /** The text `v or ""` stands for, when it is a string at all. */
  function Text(v: Value): Option<string> {
    var w := OrEmpty(v);
    if w.Str? then Some(w.s) else None
  }

  lemma TextOfFalsy(v: Value)
    requires !Truthy(v)
    ensures Text(v) == Some("")
  {
  }

  /** `prefix + (description or "") + suffix`, followed by the length check. */
  function ComposeDescription(prefix: Value, body: Value, suffix: Value): (r: Result<string>)
    ensures r.Ok? <==> Text(prefix).Some? && Text(body).Some? && Text(suffix).Some? &&
                       |Text(prefix).value + Text(body).value + Text(suffix).value| <= MaxDescriptionLength
    ensures r.Ok? ==> r.value == Text(prefix).value + Text(body).value + Text(suffix).value
    ensures r.Ok? ==> |r.value| <= MaxDescriptionLength
    ensures r.Err? && Text(prefix).Some? && Text(body).Some? && Text(suffix).Some? ==>
              r.error == DescriptionTooLong(|Text(prefix).value + Text(body).value + Text(suffix).value|)
  {
    var p := Text(prefix);
    var b := Text(body);
    var s := Text(suffix);
    if p.None? || b.None? || s.None? then Err(TypeMismatch(["description"]))
    else
      var text := p.value + b.value + s.value;
      if |text| > MaxDescriptionLength then Err(DescriptionTooLong(|text|)) else Ok(text)
  }

  /** `int(s)` for the decimal texts it accepts here: an optional sign and
      at least one ASCII digit. */
  predicate IsDigit(c: char) { '0' <= c <= '9' }

  function DigitsValue(s: string): (n: nat)
    requires forall k :: 0 <= k < |s| ==> IsDigit(s[k])
    decreases |s|
  {
    if |s| == 0 then 0
    else
      assert IsDigit(s[|s| - 1]);
      10 * DigitsValue(s[..|s| - 1]) + (s[|s| - 1] as int - '0' as int)
  }

  function ParseInt(s: string): Option<int> {
    var negative := |s| > 0 && s[0] == '-';
    var digits := if |s| > 0 && (s[0] == '-' || s[0] == '+') then s[1..] else s;
    if |digits| > 0 && forall k :: 0 <= k < |digits| ==> IsDigit(digits[k]) then
      var n: int := DigitsValue(digits);
      Some(if negative then -n else n)
    else None
  }

  /** `int(v)`: integers unchanged, booleans as 0 and 1, decimal strings
      parsed; anything else fails. */
  function CoerceId(v: Value): (r: Result<Value>)
    ensures r.Ok? ==> r.value.Int?
    ensures v.Int? ==> r == Ok(v)
    ensures v.Bool? ==> r == Ok(Int(if v.b then 1 else 0))
    ensures v.Str? && ParseInt(v.s).Some? ==> r == Ok(Int(ParseInt(v.s).value))
    ensures r.Err? <==> !(v.Int? || v.Bool? || (v.Str? && ParseInt(v.s).Some?))
  {
    match v
    case Int(n) => Ok(v)
    case Bool(b) => Ok(Int(if b then 1 else 0))
    case Str(s) =>
      var n := ParseInt(s);
      if n.Some? then Ok(Int(n.value)) else Err(BadInteger(["id"]))
    case _ => Err(TypeMismatch(["id"]))
  }

  /** Coercing twice is coercing once. */
  lemma CoerceIdIdempotent(v: Value)
    requires CoerceId(v).Ok?
    ensures CoerceId(CoerceId(v).value) == CoerceId(v)
  {
  }

  function DigitChar(d: nat): char
    requires d < 10
  {
    ('0' as int + d) as char
  }

  /** The decimal text of a natural number, as `str(n)` writes it. */
  function Decimal(n: nat): (s: string)
    ensures |s| > 0 && forall k :: 0 <= k < |s| ==> IsDigit(s[k])
    decreases n
  {
    if n < 10 then [DigitChar(n)] else Decimal(n / 10) + [DigitChar(n % 10)]
  }

  lemma {:induction false} DigitsValueOfDecimal(n: nat)
    ensures DigitsValue(Decimal(n)) == n
    decreases n
  {
    var s := Decimal(n);
    if n >= 10 {
      DigitsValueOfDecimal(n / 10);
      assert s[..|s| - 1] == Decimal(n / 10);
    }
  }

  /** An id persisted as its decimal text comes back as the same integer. */
  lemma CoerceIdOfDecimalText(n: int)
    ensures CoerceId(Str(if n < 0 then "-" + Decimal(-n) else Decimal(n))) == Ok(Int(n))
  {
    if n < 0 {
      DigitsValueOfDecimal(-n);
      assert ("-" + Decimal(-n))[1..] == Decimal(-n);
    } else {
      DigitsValueOfDecimal(n);
      assert Decimal(n)[0] != '-' && Decimal(n)[0] != '+';
    }
  }

  /** The category table: the bundled entries overlaid by the configured
      ones (`dict.update`), configured entries winning on a shared key. */
  function Overlay(bundled: map<string, string>, overrides: map<string, string>): (t: map<string, string>)
    ensures t.Keys == bundled.Keys + overrides.Keys
    ensures forall k :: k in overrides ==> t[k] == overrides[k]
    ensures forall k :: k in bundled && k !in overrides ==> t[k] == bundled[k]
  {
    bundled + overrides
  }

  /** `categories.get(c, c)`: the mapped code for a known name, the value itself otherwise. */
  function LookupCategory(table: map<string, string>, c: Value): Value {
    if c.Str? && c.s in table then Str(table[c.s]) else c
  }

  /** A category resolves through the configured entry, then the bundled
      one, and is otherwise taken to be a code already. */
  lemma CategoryResolution(bundled: map<string, string>, overrides: map<string, string>, name: string)
    ensures name in overrides ==> LookupCategory(Overlay(bundled, overrides), Str(name)) == Str(overrides[name])
    ensures name !in overrides && name in bundled ==>
              LookupCategory(Overlay(bundled, overrides), Str(name)) == Str(bundled[name])
    ensures name !in overrides && name !in bundled ==>
              LookupCategory(Overlay(bundled, overrides), Str(name)) == Str(name)
  {
  }

  /** `ad` with only `key` possibly changed. */
  ghost predicate ChangesOnly(ad: Ad, ad': Ad, key: string) {
    ad'.Keys == ad.Keys && forall k :: k in ad && k != key ==> ad'[k] == ad[k]
  }

  /** Lines 287-288: a truthy id becomes an integer. */
  function ResolveId(ad: Ad): (r: Result<Ad>)
    ensures r.Ok? ==> ChangesOnly(ad, r.value, "id")
    ensures r.Ok? ==> "id" in ad
    ensures r.Ok? && Truthy(ad["id"]) ==> r.value["id"].Int? && CoerceId(ad["id"]) == Ok(r.value["id"])
    ensures r.Ok? && !Truthy(ad["id"]) ==> r.value == ad
    ensures r.Err? <==> "id" !in ad || (Truthy(ad["id"]) && CoerceId(ad["id"]).Err?)
  {
    var id :- Get(ad, "id");
    if Truthy(id) then
      var n :- CoerceId(id);
      Ok(ad["id" := n])
    else Ok(ad)
  }

  /** A value `dict.get` cannot hash: a lookup with it raises TypeError. */
  predicate Unhashable(v: Value) {
    v.List? || v.Dict?
  }

  /** Lines 290-291: a truthy category is looked up in the table; a list or
      dict category cannot be a key, and the lookup fails. */
  function ResolveCategory(ad: Ad, table: map<string, string>): (r: Result<Ad>)
    ensures r.Ok? ==> ChangesOnly(ad, r.value, "category")
    ensures r.Ok? ==> "category" in ad && r.value["category"] == (if Truthy(ad["category"]) then LookupCategory(table, ad["category"]) else ad["category"])
    ensures r.Err? <==> "category" !in ad || (Truthy(ad["category"]) && Unhashable(ad["category"]))
    ensures "category" in ad && Truthy(ad["category"]) && Unhashable(ad["category"]) ==> r == Err(TypeMismatch(["category"]))
  {
    var category :- Get(ad, "category");
    if !Truthy(category) then Ok(ad)
    else if Unhashable(category) then Err(TypeMismatch(["category"]))
    else Ok(ad["category" := LookupCategory(table, category)])
  }

  /** Lines 293-294: truthy shipping costs are rounded by `round`. */
  function ResolveShippingCosts(ad: Ad, round: Value -> Value): (r: Result<Ad>)
    ensures r.Ok? ==> ChangesOnly(ad, r.value, "shipping_costs")
    ensures r.Ok? ==> "shipping_costs" in ad && r.value["shipping_costs"] == (if Truthy(ad["shipping_costs"]) then round(ad["shipping_costs"]) else ad["shipping_costs"])
    ensures r.Err? <==> "shipping_costs" !in ad
  {
    var costs :- Get(ad, "shipping_costs");
    if Truthy(costs) then Ok(ad["shipping_costs" := round(costs)]) else Ok(ad)
  }
}
