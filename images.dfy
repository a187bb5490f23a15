/** Image resolution of `load_ads` (kleinanzeigen_bot/__init__.py, lines
    296-310): every pattern's matches, checked against the extension
    allow-list, made absolute and sorted; the sorted lists concatenated in
    pattern order; repeated paths dropped where they occur again. Glob
    expansion and `utils.abspath` are parameters. */
module Images {
  import opened Values
  import opened Strings
  import opened Ordering

  const AllowedImageExtensions: set<string> := {".gif", ".jpg", ".jpeg", ".png"}

  /** `os.path.splitext(f)[1].lower()` is one of the allowed extensions. */
  predicate IsAllowedImage(file: string) {
    LowerAscii(Extension(file)) in AllowedImageExtensions
  }

  /** A match as it enters the pattern's set: kept when absolute, otherwise
      made absolute relative to the ad file. */
  function AbsoluteImage(file: string, adFile: string, abspath: (string, string) -> string): string {
    if IsAbs(file) then file else abspath(file, adFile)
  }

  /** The absolute forms of a pattern's matches. */
  function AbsoluteImages(matches: seq<string>, adFile: string, abspath: (string, string) -> string): set<string> {
    set k | 0 <= k < |matches| :: AbsoluteImage(matches[k], adFile, abspath)
  }

  lemma AbsoluteImagesStep(matches: seq<string>, j: nat, adFile: string, abspath: (string, string) -> string)
    requires j < |matches|
    ensures AbsoluteImages(matches[..j + 1], adFile, abspath) ==
            AbsoluteImages(matches[..j], adFile, abspath) + {AbsoluteImage(matches[j], adFile, abspath)}
  {
    var a := matches[..j + 1];
    var b := matches[..j];
    forall x | x in AbsoluteImages(a, adFile, abspath)
      ensures x in AbsoluteImages(b, adFile, abspath) + {AbsoluteImage(matches[j], adFile, abspath)}
    {
      var k :| 0 <= k < |a| && x == AbsoluteImage(a[k], adFile, abspath);
      if k < j {
        assert a[k] == b[k];
      }
    }
    forall x | x in AbsoluteImages(b, adFile, abspath)
      ensures x in AbsoluteImages(a, adFile, abspath)
    {
      var k :| 0 <= k < |b| && x == AbsoluteImage(b[k], adFile, abspath);
      assert a[k] == b[k];
    }
    assert a[j] == matches[j];
  }

  /** The position of the first element `ok` refuses, or the length when
      it refuses none. */
  function FirstRefused(ok: string -> bool, xs: seq<string>): (k: nat)
    ensures k <= |xs|
    ensures k < |xs| ==> !ok(xs[k])
    ensures forall j :: 0 <= j < k ==> ok(xs[j])
    decreases |xs|
  {
    if |xs| == 0 || !ok(xs[0]) then 0
    else
      var k := 1 + FirstRefused(ok, xs[1..]);
      assert forall j :: 0 < j < k ==> xs[1..][j - 1] == xs[j];
      k
  }

  /** The position of the first match with an extension outside the
      allow-list, or the number of matches when there is none. */
  function FirstDisallowed(matches: seq<string>): nat {
    FirstRefused(IsAllowedImage, matches)
  }

  /** The set one pattern's matches give (lines 299-307), or the error for
      the first match with an extension outside the allow-list. */
  function PatternImages(matches: seq<string>, adFile: string, abspath: (string, string) -> string): Result<set<string>> {
    var k := FirstDisallowed(matches);
    if k == |matches| then Ok(AbsoluteImages(matches, adFile, abspath))
    else Err(UnsupportedImageType(matches[k]))
  }

  /** The matches of one pattern, searched from the ad file's directory. */
  function Matches(pattern: string, adFile: string, glob: (string, string) -> seq<string>): seq<string> {
    glob(pattern, Dirname(adFile))
  }

  /** What one entry of `images` gives: the set of its matches, or the
      error for an entry that is not a string or for a disallowed match. */
  ghost function PatternStep(adFile: string, glob: (string, string) -> seq<string>,
                             abspath: (string, string) -> string): Value -> Result<set<string>>
  {
    (p: Value) => if !p.Str? then Err(TypeMismatch(["images"])) else PatternImages(Matches(p.s, adFile, glob), adFile, abspath)
  }

  /** The sets `step` gives, one per pattern in order, or the first error. */
  ghost function PatternSets(step: Value -> Result<set<string>>, patterns: seq<Value>): Result<seq<set<string>>>
    decreases |patterns|
  {
    if |patterns| == 0 then Ok([])
    else
      var n := |patterns| - 1;
      var before :- PatternSets(step, patterns[..n]);
      var found :- step(patterns[n]);
      Ok(before + [found])
  }

  /** The sorted listings of the sets, concatenated. */
  ghost function ConcatSorted(sets: seq<set<string>>): seq<string>
    decreases |sets|
  {
    if |sets| == 0 then [] else ConcatSorted(sets[..|sets| - 1]) + SortedSeq(sets[|sets| - 1])
  }

  /** The list `images` holds after the loop of lines 298-308. */
  ghost function PatternListing(patterns: seq<Value>, adFile: string, glob: (string, string) -> seq<string>,
                                abspath: (string, string) -> string): Result<seq<string>>
  {
    var sets :- PatternSets(PatternStep(adFile, glob, abspath), patterns);
    Ok(ConcatSorted(sets))
  }

  function StrList(xs: seq<string>): (v: Value)
    ensures v.List? && |v.items| == |xs|
    ensures forall i :: 0 <= i < |xs| ==> v.items[i] == Str(xs[i])
  {
    List(seq(|xs|, i requires 0 <= i < |xs| => Str(xs[i])))
  }

  /** The `images` field after resolution (lines 296-310). */
  ghost function ResolveImageField(images: Value, adFile: string, glob: (string, string) -> seq<string>,
                                   abspath: (string, string) -> string): Result<Value>
  {
    if !Truthy(images) then Ok(images)
    else if !images.List? then Err(TypeMismatch(["images"]))
    else
      var listing :- PatternListing(images.items, adFile, glob, abspath);
      if |listing| == 0 then Err(NoImagesFound) else Ok(StrList(FromKeys(listing)))
  }

  /** An error in the first `k` patterns is the error of them all. */
  lemma {:induction false} PatternSetsErrPrefix(step: Value -> Result<set<string>>, patterns: seq<Value>, k: nat)
    requires 0 < k <= |patterns| && PatternSets(step, patterns[..k]).Err?
    ensures PatternSets(step, patterns) == PatternSets(step, patterns[..k])
    decreases |patterns|
  {
    if k == |patterns| {
      assert patterns[..k] == patterns;
    } else {
      var n := |patterns| - 1;
      assert patterns[..n][..k] == patterns[..k];
      PatternSetsErrPrefix(step, patterns[..n], k);
    }
  }

  /** One more pattern: its set is appended, or its error ends the list. */
  lemma PatternSetsStep(step: Value -> Result<set<string>>, patterns: seq<Value>, i: nat)
    requires i < |patterns| && PatternSets(step, patterns[..i]).Ok?
    ensures step(patterns[i]).Err? ==> PatternSets(step, patterns[..i + 1]) == Err(step(patterns[i]).error)
    ensures step(patterns[i]).Ok? ==>
              PatternSets(step, patterns[..i + 1]) == Ok(PatternSets(step, patterns[..i]).value + [step(patterns[i]).value])
  {
    var prefix := patterns[..i + 1];
    assert prefix[..i] == patterns[..i] && prefix[i] == patterns[i] && |prefix| - 1 == i;
  }

  /** The inner loop of lines 299-307 for one pattern's matches. */
  method CollectPatternImages(matches: seq<string>, adFile: string, abspath: (string, string) -> string)
    returns (r: Result<set<string>>)
    ensures r == PatternImages(matches, adFile, abspath)
  {
    var patternImages: set<string> := {};
    var j := 0;
    while j < |matches|
      invariant 0 <= j <= |matches|
      invariant j <= FirstDisallowed(matches)
      invariant patternImages == AbsoluteImages(matches[..j], adFile, abspath)
    {
      var imageFile := matches[j];
      if !IsAllowedImage(imageFile) {
        assert FirstDisallowed(matches) == j;
        return Err(UnsupportedImageType(imageFile));
      }
      AbsoluteImagesStep(matches, j, adFile, abspath);
      if IsAbs(imageFile) {
        patternImages := patternImages + {imageFile};
      } else {
        patternImages := patternImages + {abspath(imageFile, adFile)};
      }
      j := j + 1;
    }
    assert matches[..j] == matches;
    return Ok(patternImages);
  }

  /** Lines 296-310 as the source runs them. */
  method ResolveImages(images: Value, adFile: string, glob: (string, string) -> seq<string>,
                       abspath: (string, string) -> string) returns (r: Result<Value>)
    ensures r == ResolveImageField(images, adFile, glob, abspath)
  {
    if !Truthy(images) {
      return Ok(images);
    }
    if !images.List? {
      return Err(TypeMismatch(["images"]));
    }
    var patterns := images.items;
    var found: seq<string> := [];
    ghost var sets: seq<set<string>> := [];
    ghost var step := PatternStep(adFile, glob, abspath);
    var i := 0;
    while i < |patterns|
      invariant 0 <= i <= |patterns|
      invariant PatternSets(step, patterns[..i]) == Ok(sets)
      invariant found == ConcatSorted(sets)
    {
      var pattern := patterns[i];
      PatternSetsStep(step, patterns, i);
      if !pattern.Str? {
        assert step(pattern) == Err(TypeMismatch(["images"]));
        PatternSetsErrPrefix(step, patterns, i + 1);
        return Err(TypeMismatch(["images"]));
      }
      var adDir := Dirname(adFile);
      var matches := glob(pattern.s, adDir);
      var collected := CollectPatternImages(matches, adFile, abspath);
      assert step(pattern) == collected;
      if collected.Err? {
        PatternSetsErrPrefix(step, patterns, i + 1);
        return Err(collected.error);
      }
      var patternImages := collected.value;
      var sorted := SortedFromSet(patternImages);
      found := found + sorted;
      sets := sets + [patternImages];
      i := i + 1;
    }
    assert patterns[..i] == patterns;
    if |found| == 0 {
      return Err(NoImagesFound);
    }
    return Ok(StrList(FromKeys(found)));
  }

  /** `x` is the absolute form of some match of some pattern. */
  ghost predicate IsMatchedImage(x: string, patterns: seq<Value>, adFile: string,
                                 glob: (string, string) -> seq<string>, abspath: (string, string) -> string) {
    exists i :: 0 <= i < |patterns| && patterns[i].Str? &&
                x in AbsoluteImages(Matches(patterns[i].s, adFile, glob), adFile, abspath)
  }

  /** Every match of every pattern has an allowed extension. */
  ghost predicate AllMatchesAllowed(patterns: seq<Value>, adFile: string, glob: (string, string) -> seq<string>) {
    forall i, k :: 0 <= i < |patterns| && patterns[i].Str? && 0 <= k < |Matches(patterns[i].s, adFile, glob)| ==>
                   IsAllowedImage(Matches(patterns[i].s, adFile, glob)[k])
  }

  /** When the patterns succeed, there is one set per pattern, the one
      `step` gives for it. */
  lemma {:induction false} PatternSetsShape(step: Value -> Result<set<string>>, patterns: seq<Value>)
    requires PatternSets(step, patterns).Ok?
    ensures var sets := PatternSets(step, patterns).value;
            |sets| == |patterns| && forall i :: 0 <= i < |patterns| ==> step(patterns[i]) == Ok(sets[i])
    decreases |patterns|
  {
    if |patterns| > 0 {
      var n := |patterns| - 1;
      var init := patterns[..n];
      PatternSetsShape(step, init);
      assert forall i :: 0 <= i < n ==> init[i] == patterns[i];
    }
  }

  /** When the entries of `images` succeed, every entry is a string and its
      set holds the absolute forms of its matches, which all have allowed
      extensions. */
  lemma MatchedSets(patterns: seq<Value>, adFile: string,
                    glob: (string, string) -> seq<string>, abspath: (string, string) -> string)
    requires PatternSets(PatternStep(adFile, glob, abspath), patterns).Ok?
    ensures var sets := PatternSets(PatternStep(adFile, glob, abspath), patterns).value;
            |sets| == |patterns| &&
            forall i :: 0 <= i < |patterns| ==>
              patterns[i].Str? && sets[i] == AbsoluteImages(Matches(patterns[i].s, adFile, glob), adFile, abspath)
    ensures AllMatchesAllowed(patterns, adFile, glob)
  {
    var step := PatternStep(adFile, glob, abspath);
    var sets := PatternSets(step, patterns).value;
    PatternSetsShape(step, patterns);
    forall i | 0 <= i < |patterns|
      ensures patterns[i].Str? && sets[i] == AbsoluteImages(Matches(patterns[i].s, adFile, glob), adFile, abspath)
      ensures patterns[i].Str? && forall k :: 0 <= k < |Matches(patterns[i].s, adFile, glob)| ==>
                                                IsAllowedImage(Matches(patterns[i].s, adFile, glob)[k])
    {
      assert step(patterns[i]) == Ok(sets[i]);
    }
  }

  /** The concatenated listings hold exactly the members of the sets. */
  lemma {:induction false} ConcatSortedMembers(sets: seq<set<string>>, x: string)
    ensures x in ConcatSorted(sets) <==> exists i :: 0 <= i < |sets| && x in sets[i]
    decreases |sets|
  {
    if |sets| > 0 {
      var n := |sets| - 1;
      ConcatSortedMembers(sets[..n], x);
      assert x in SortedSeq(sets[n]) <==> x in Elems(SortedSeq(sets[n]));
      assert forall i :: 0 <= i < n ==> sets[..n][i] == sets[i];
      if x in sets[n] {
        assert 0 <= n < |sets| && x in sets[n];
      }
    }
  }

  /** The listing holds exactly the absolute forms of all matches. */
  lemma PatternListingMembers(patterns: seq<Value>, adFile: string,
                              glob: (string, string) -> seq<string>, abspath: (string, string) -> string)
    requires PatternListing(patterns, adFile, glob, abspath).Ok?
    ensures forall x :: x in PatternListing(patterns, adFile, glob, abspath).value <==>
                        IsMatchedImage(x, patterns, adFile, glob, abspath)
  {
    var sets := PatternSets(PatternStep(adFile, glob, abspath), patterns).value;
    MatchedSets(patterns, adFile, glob, abspath);
    forall x
      ensures x in ConcatSorted(sets) <==> IsMatchedImage(x, patterns, adFile, glob, abspath)
    {
      ConcatSortedMembers(sets, x);
    }
  }

  /** A resolved `images` field: a non-empty list of distinct paths, each the
      absolute form of an allowed match of one of the patterns, in the order
      of their first appearance in the concatenated sorted listings. */
  lemma ResolvedImagesProperties(images: Value, adFile: string,
                                 glob: (string, string) -> seq<string>, abspath: (string, string) -> string)
    requires Truthy(images) && ResolveImageField(images, adFile, glob, abspath).Ok?
    ensures images.List?
    ensures var listing := PatternListing(images.items, adFile, glob, abspath);
            listing.Ok? && |listing.value| > 0 &&
            ResolveImageField(images, adFile, glob, abspath) == Ok(StrList(FromKeys(listing.value)))
    ensures var v := ResolveImageField(images, adFile, glob, abspath).value;
            v.List? && |v.items| > 0 && NoDup(v.items) &&
            forall j :: 0 <= j < |v.items| ==> v.items[j].Str? && IsMatchedImage(v.items[j].s, images.items, adFile, glob, abspath)
    ensures AllMatchesAllowed(images.items, adFile, glob)
  {
    var listing := PatternListing(images.items, adFile, glob, abspath).value;
    MatchedSets(images.items, adFile, glob, abspath);
    PatternListingMembers(images.items, adFile, glob, abspath);
    var xs := FromKeys(listing);
    var v := StrList(xs);
    ElemsEmpty(xs);
    ElemsEmpty(listing);
    forall j | 0 <= j < |v.items|
      ensures v.items[j].Str? && IsMatchedImage(v.items[j].s, images.items, adFile, glob, abspath)
    {
      assert xs[j] in Elems(xs);
    }
    forall a, b | 0 <= a < b < |v.items|
      ensures v.items[a] != v.items[b]
    {
      assert xs[a] != xs[b];
    }
  }

  /** With an `abspath` that keeps an allowed extension (as a normalising
      one does, since it keeps the last part `name.ext` of an allowed match),
      every resolved image has an allowed extension. */
  lemma ResolvedImagesAllowed(images: Value, adFile: string,
                              glob: (string, string) -> seq<string>, abspath: (string, string) -> string)
    requires forall f, d :: IsAllowedImage(f) ==> IsAllowedImage(abspath(f, d))
    requires Truthy(images) && ResolveImageField(images, adFile, glob, abspath).Ok?
    ensures var v := ResolveImageField(images, adFile, glob, abspath).value;
            forall j :: 0 <= j < |v.items| ==> v.items[j].Str? && IsAllowedImage(v.items[j].s)
  {
    ResolvedImagesProperties(images, adFile, glob, abspath);
    var v := ResolveImageField(images, adFile, glob, abspath).value;
    forall j | 0 <= j < |v.items|
      ensures v.items[j].Str? && IsAllowedImage(v.items[j].s)
    {
      var x := v.items[j].s;
      var i :| 0 <= i < |images.items| && images.items[i].Str? &&
               x in AbsoluteImages(Matches(images.items[i].s, adFile, glob), adFile, abspath);
      var ms := Matches(images.items[i].s, adFile, glob);
      var k :| 0 <= k < |ms| && x == AbsoluteImage(ms[k], adFile, abspath);
      assert IsAllowedImage(ms[k]);
    }
  }

  /** Patterns that match nothing make resolution fail. */
  lemma NoMatchesFails(images: Value, adFile: string,
                       glob: (string, string) -> seq<string>, abspath: (string, string) -> string)
    requires Truthy(images) && images.List?
    requires forall i :: 0 <= i < |images.items| ==> images.items[i].Str? && Matches(images.items[i].s, adFile, glob) == []
    ensures ResolveImageField(images, adFile, glob, abspath) == Err(NoImagesFound)
  {
    var step := PatternStep(adFile, glob, abspath);
    forall i | 0 <= i < |images.items|
      ensures step(images.items[i]) == Ok({})
    {
      assert AbsoluteImages([], adFile, abspath) == {};
    }
    PatternSetsOfEmptySets(step, images.items);
    var sets := PatternSets(step, images.items).value;
    forall x
      ensures x !in ConcatSorted(sets)
    {
      ConcatSortedMembers(sets, x);
    }
    ElemsEmpty(ConcatSorted(sets));
  }

  lemma {:induction false} PatternSetsOfEmptySets(step: Value -> Result<set<string>>, patterns: seq<Value>)
    requires forall i :: 0 <= i < |patterns| ==> step(patterns[i]) == Ok({})
    ensures PatternSets(step, patterns).Ok?
    ensures forall i :: 0 <= i < |PatternSets(step, patterns).value| ==> PatternSets(step, patterns).value[i] == {}
    decreases |patterns|
  {
    if |patterns| > 0 {
      var n := |patterns| - 1;
      assert forall i :: 0 <= i < n ==> patterns[..n][i] == patterns[i];
      PatternSetsOfEmptySets(step, patterns[..n]);
    }
  }
}
