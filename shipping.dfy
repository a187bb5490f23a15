/** The shipping options of an ad (kleinanzeigen_bot/__init__.py, lines
    631-651): every option names a carrier package, and the options of one
    ad must all belong to one package size. */
module Shipping {
  import opened Values

  datatype Package = Package(size: string, name: string)

  /** The known options and the package size and package each stands for. */
  const OptionPackages: map<string, Package> := map[
    "DHL_2" := Package("Klein", "Paket 2 kg"),
    "Hermes_Päckchen" := Package("Klein", "Päckchen"),
    "Hermes_S" := Package("Klein", "S-Paket"),
    "DHL_5" := Package("Mittel", "Paket 5 kg"),
    "Hermes_M" := Package("Mittel", "M-Paket"),
    "DHL_10" := Package("Mittel", "Paket 10 kg"),
    "DHL_31,5" := Package("Groß", "Paket 31,5 kg"),
    "Hermes_L" := Package("Groß", "L-Paket")
  ]

  predicate IsKnownOption(option: Value) {
    option.Str? && option.s in OptionPackages
  }

  function PackageOf(option: Value): Package
    requires IsKnownOption(option)
  {
    OptionPackages[option.s]
  }

  /** The package size to tick and the packages to tick, in option order. */
  datatype Shipment = Shipment(size: string, packages: seq<string>)

  /** The packages of the options, one per option (line 642). */
  function MapOptions(options: seq<Value>): (r: seq<Package>)
    requires forall i :: 0 <= i < |options| ==> IsKnownOption(options[i])
    ensures |r| == |options|
    ensures forall i :: 0 <= i < |options| ==> r[i] == PackageOf(options[i])
  {
    seq(|options|, i requires 0 <= i < |options| => PackageOf(options[i]))
  }

  function Sizes(packages: seq<Package>): set<string> {
    set i | 0 <= i < |packages| :: packages[i].size
  }

  /** Lines 641-651: an unknown option fails first; no options leave nothing
      to unpack; more than one package size fails; otherwise the one size
      and the packages in option order. */
  function SelectShipping(options: seq<Value>): (r: Result<Shipment>)
    ensures r.Ok? <==> && (forall i :: 0 <= i < |options| ==> IsKnownOption(options[i]))
                       && |options| > 0
                       && forall i, j :: 0 <= i < |options| && 0 <= j < |options| ==>
                            PackageOf(options[i]).size == PackageOf(options[j]).size
    ensures r.Ok? ==> |r.value.packages| == |options| &&
                      forall i :: 0 <= i < |options| ==>
                        PackageOf(options[i]) == Package(r.value.size, r.value.packages[i])
    ensures r == Err(UnknownShippingOption) <==> exists i :: 0 <= i < |options| && !IsKnownOption(options[i])
    ensures r == Err(NoShippingOptions) <==> |options| == 0
    ensures (forall i :: 0 <= i < |options| ==> IsKnownOption(options[i])) &&
            (exists i, j :: 0 <= i < |options| && 0 <= j < |options| && IsKnownOption(options[i]) && IsKnownOption(options[j]) &&
                            PackageOf(options[i]).size != PackageOf(options[j]).size) ==>
            r == Err(SeveralPackageSizes)
  {
    if exists i :: 0 <= i < |options| && !IsKnownOption(options[i]) then Err(UnknownShippingOption)
    else
      var mapped := MapOptions(options);
      if |mapped| == 0 then Err(NoShippingOptions)
      else
        var sizes := Sizes(mapped);
        SizesOfOneSize(mapped);
        if |sizes| > 1 then Err(SeveralPackageSizes)
        else Ok(Shipment(mapped[0].size, seq(|mapped|, i requires 0 <= i < |mapped| => mapped[i].name)))
  }

  /** A non-empty list of packages has one size exactly when all of them
      have the first one's size. */
  lemma SizesOfOneSize(packages: seq<Package>)
    requires |packages| > 0
    ensures |Sizes(packages)| <= 1 <==> forall i :: 0 <= i < |packages| ==> packages[i].size == packages[0].size
    ensures |Sizes(packages)| >= 1
  {
    var sizes := Sizes(packages);
    assert packages[0].size in sizes;
    if forall i :: 0 <= i < |packages| ==> packages[i].size == packages[0].size {
      assert sizes == {packages[0].size};
    } else {
      var i :| 0 <= i < |packages| && packages[i].size != packages[0].size;
      var pair := {packages[0].size, packages[i].size};
      assert |pair| == 2;
      SubsetCardinality(pair, sizes);
    }
  }

  lemma {:induction false} SubsetCardinality<T>(a: set<T>, b: set<T>)
    requires a <= b
    ensures |a| <= |b|
    decreases |a|
  {
    if a != {} {
      var x :| x in a;
      SubsetCardinality(a - {x}, b - {x});
    }
  }

  /** Options drawn from one size always succeed, whatever their order or
      repetition. */
  lemma SameSizeOptionsSucceed(options: seq<Value>, size: string)
    requires |options| > 0
    requires forall i :: 0 <= i < |options| ==> IsKnownOption(options[i]) && PackageOf(options[i]).size == size
    ensures SelectShipping(options).Ok? && SelectShipping(options).value.size == size
  {
  }

  /** Mixing a small and a medium package is refused. */
  lemma MixedSizesRefused()
    ensures SelectShipping([Str("DHL_2"), Str("DHL_5")]) == Err(SeveralPackageSizes)
  {
    var options := [Str("DHL_2"), Str("DHL_5")];
    assert IsKnownOption(options[0]) && IsKnownOption(options[1]);
    assert PackageOf(options[0]).size != PackageOf(options[1]).size;
  }
}
