/** The bookkeeping around publishing and deleting one ad
    (kleinanzeigen_bot/__init__.py, lines 429 and 576-583): deleting clears
    the id of the resolved definition; publishing writes the time stamp, the
    creation stamp on a first publication and the assigned id back into the
    definition as loaded, which is what gets saved. */
module Publish {
  import opened Values
  import opened Selection

  /** Line 429: the resolved definition after `delete_ad`. */
  function ClearId(ad: Ad): (r: Ad)
    ensures r.Keys == ad.Keys + {"id"}
    ensures r["id"] == Null
    ensures forall k :: k in ad && k != "id" ==> r[k] == ad[k]
  {
    ad["id" := Null]
  }

  /** `not ad["created_on"] and not ad["id"]` (line 577), with the second
      key read only when the first is empty. */
  function IsFirstPublication(ad: Ad): (r: Result<bool>)
    ensures r == Ok(true) <==> "created_on" in ad && !Truthy(ad["created_on"]) && "id" in ad && !Truthy(ad["id"])
    ensures r.Err? <==> "created_on" !in ad || (!Truthy(ad["created_on"]) && "id" !in ad)
  {
    var created :- Get(ad, "created_on");
    if Truthy(created) then Ok(false)
    else
      var id :- Get(ad, "id");
      Ok(!Truthy(id))
  }

  /** Lines 576-583 on the definition as loaded: `updated_on` is the stamp,
      `created_on` too on a first publication, `id` the assigned id. */
  function WriteBack(orig: Ad, first: bool, stamp: string, adId: int): (w: Ad)
    ensures w.Keys == orig.Keys + {"updated_on", "id"} + (if first then {"created_on"} else {})
    ensures w["updated_on"] == Str(stamp) && w["id"] == Int(adId)
    ensures first ==> w["created_on"] == Str(stamp)
    ensures forall k :: k in orig && k != "updated_on" && k != "id" && (first ==> k != "created_on") ==> w[k] == orig[k]
  {
    var stamped := orig["updated_on" := Str(stamp)];
    var created := if first then stamped["created_on" := stamped["updated_on"]] else stamped;
    created["id" := Int(adId)]
  }

  /** A written-back definition reads as published: it has an id, so the
      next publication is not a first one and the `new` selector skips it;
      and its last publication is the stamp, from which the `due` selector
      counts the days. */
  lemma WriteBackMarksPublished(orig: Ad, first: bool, stamp: string, adId: int, parse: Value -> int)
    requires adId != 0 && stamp != ""
    ensures var w := WriteBack(orig, first, stamp, adId);
            && (("created_on" in w) ==> IsFirstPublication(w) == Ok(false))
            && LastPublished(w, parse) == Ok(Some(parse(Str(stamp))))
            && Truthy(w["id"])
  {
  }

  /** Writing back twice with the same stamp and id is writing back once:
      a repeated save leaves the definition as it is. */
  lemma WriteBackIdempotent(orig: Ad, first: bool, stamp: string, adId: int)
    ensures WriteBack(WriteBack(orig, first, stamp, adId), first, stamp, adId) == WriteBack(orig, first, stamp, adId)
  {
    var w := WriteBack(orig, first, stamp, adId);
    var w2 := WriteBack(w, first, stamp, adId);
    assert w2.Keys == w.Keys;
    assert forall k :: k in w ==> w2[k] == w[k];
  }

  /** Whether `created_on` gets stamped, as the source decides it: with
      `delete_old_ads` the check reads the definition after `delete_ad`. */
  function FirstPublicationAsWritten(deleteOldAds: bool, resolved: Ad): Result<bool> {
    IsFirstPublication(if deleteOldAds then ClearId(resolved) else resolved)
  }

  /** With `delete_old_ads`, the id is always empty by the time of the check,
      so an ad that was published before (it has an id) but has no
      `created_on` is stamped as if it were new. */
  lemma DeleteBeforeCheckHidesId()
    ensures var ad := map["created_on" := Null, "id" := Int(12345)];
            FirstPublicationAsWritten(true, ad) == Ok(true) && IsFirstPublication(ad) == Ok(false)
  {
  }

  /** Under the intended check an ad with an id never receives a new
      `created_on`; as written, it can only when old ads are deleted first. */
  lemma FirstPublicationNeedsNoId(resolved: Ad)
    requires "id" in resolved && Truthy(resolved["id"])
    ensures IsFirstPublication(resolved) != Ok(true)
    ensures forall deleteOldAds :: FirstPublicationAsWritten(deleteOldAds, resolved) == Ok(true) ==> deleteOldAds
  {
  }

  /** The two checks agree when old ads are kept, or when the id was
      already empty. */
  lemma AsWrittenAgreesWithoutId(deleteOldAds: bool, resolved: Ad)
    requires !deleteOldAds || ("id" in resolved && !Truthy(resolved["id"]))
    ensures FirstPublicationAsWritten(deleteOldAds, resolved) == IsFirstPublication(resolved)
  {
    if deleteOldAds {
      assert ClearId(resolved) == resolved["id" := Null];
    }
  }
}
