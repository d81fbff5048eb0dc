/** The `SuitImage` model: its two query scopes and `setAsMain`, which makes
    an image the main one (order 0) by swapping orders with the current main image. */
module SuitImageModel {
  import opened Common
  import opened Schema

  /** `scopeMain`: the image is the main one. */
  predicate ScopeMain(img: SuitImage) {
    img.sortOrder == 0
  }

  /** `scopeSecondary`: the image comes after the main one. */
  predicate ScopeSecondary(img: SuitImage) {
    img.sortOrder > 0
  }

  /** The ids of a suit's images that a scope selects. */
  function MainImages(images: map<ImageId, SuitImage>, suitId: SuitId): set<ImageId> {
    set id | id in images && images[id].suitId == suitId && ScopeMain(images[id])
  }

  function SecondaryImages(images: map<ImageId, SuitImage>, suitId: SuitId): set<ImageId> {
    set id | id in images && images[id].suitId == suitId && ScopeSecondary(images[id])
  }

  /** The ids of all images of a suit. */
  function ImagesOf(images: map<ImageId, SuitImage>, suitId: SuitId): set<ImageId> {
    set id | id in images && images[id].suitId == suitId
  }

  /** No image is in both scopes, and when no order is negative (the orders
      `uploadImages` and `deleteImage` produce) every image is in one of them. */
  lemma ScopesPartition(images: map<ImageId, SuitImage>, suitId: SuitId)
    ensures MainImages(images, suitId) * SecondaryImages(images, suitId) == {}
    ensures MainImages(images, suitId) + SecondaryImages(images, suitId) <= ImagesOf(images, suitId)
    ensures (forall id :: id in images ==> images[id].sortOrder >= 0) ==>
              MainImages(images, suitId) + SecondaryImages(images, suitId) == ImagesOf(images, suitId)
  {
    var main, secondary := MainImages(images, suitId), SecondaryImages(images, suitId);
    forall id | id in main ensures id !in secondary {
      assert images[id].sortOrder == 0;
    }
  }

  /** The table after `setAsMain` on `imageId`, when `main` is the main image
      it found (if any): the main image takes this image's order, this image takes 0. */
  function Swapped(images: map<ImageId, SuitImage>, imageId: ImageId, main: Option<ImageId>): map<ImageId, SuitImage>
    requires imageId in images
  {
    var order := images[imageId].sortOrder;
    map id | id in images ::
      if id == imageId then images[id].(sortOrder := 0)
      else if main == Some(id) then images[id].(sortOrder := order)
      else images[id]
  }

  /** `setAsMain`: looks up a main image of the same suit (`first()` of the
      scope, which may be any of them), gives it this image's order, then sets
      this image's order to 0. Returns the main image it found. */
  method SetAsMain(db: Database, imageId: ImageId) returns (currentMain: Option<ImageId>)
    requires db.Valid() && imageId in db.images
    modifies db`images
    ensures db.Valid()
    ensures currentMain.Some? ==> currentMain.value in MainImages(old(db.images), old(db.images)[imageId].suitId)
    ensures currentMain.None? ==> MainImages(old(db.images), old(db.images)[imageId].suitId) == {}
    ensures db.images == Swapped(old(db.images), imageId, currentMain)
  {
    var suitId := db.images[imageId].suitId;
    var order := db.images[imageId].sortOrder;
    var mains := set id | id in db.images && db.images[id].suitId == suitId && db.images[id].sortOrder == 0;
    assert mains == MainImages(db.images, suitId);
    if mains != {} {
      var m :| m in mains;
      db.images := db.images[m := db.images[m].(sortOrder := order)];
      currentMain := Some(m);
    } else {
      currentMain := None;
    }
    db.images := db.images[imageId := db.images[imageId].(sortOrder := 0)];
  }

  /** After the swap the image is main, and the images outside the swapped pair are untouched. */
  lemma SwappedMakesMain(images: map<ImageId, SuitImage>, imageId: ImageId, main: Option<ImageId>)
    requires imageId in images
    ensures var after := Swapped(images, imageId, main);
      && after.Keys == images.Keys
      && imageId in MainImages(after, images[imageId].suitId)
      && (forall id :: id in images && id != imageId && main != Some(id) ==> after[id] == images[id])
      && (forall id :: id in images ==> after[id].suitId == images[id].suitId && after[id].imagePath == images[id].imagePath)
  {
  }

  /** The ids of the suit's images that hold order `v`. */
  function WithOrder(images: map<ImageId, SuitImage>, suitId: SuitId, v: int): set<ImageId> {
    set id | id in images && images[id].suitId == suitId && images[id].sortOrder == v
  }

  /** The number of the suit's images that hold order `v`. */
  function CountOrder(images: map<ImageId, SuitImage>, suitId: SuitId, v: int): nat {
    |WithOrder(images, suitId, v)|
  }

  /** Taking one member out of a set and putting one non-member in keeps its size. */
  lemma ExchangeKeepsSize(s: set<ImageId>, out: ImageId, into: ImageId)
    requires out in s && into !in s
    ensures |(s - {out}) + {into}| == |s|
  {
    assert |s - {out}| == |s| - 1;
  }

  /** With a main image found, `setAsMain` swaps two orders of the suit: the
      multiset of the suit's orders is unchanged. */
  lemma SwapKeepsOrders(images: map<ImageId, SuitImage>, imageId: ImageId, m: ImageId, v: int)
    requires imageId in images && m in MainImages(images, images[imageId].suitId)
    ensures CountOrder(Swapped(images, imageId, Some(m)), images[imageId].suitId, v)
         == CountOrder(images, images[imageId].suitId, v)
  {
    var suitId, order := images[imageId].suitId, images[imageId].sortOrder;
    var after := Swapped(images, imageId, Some(m));
    var s, t := WithOrder(images, suitId, v), WithOrder(after, suitId, v);
    if m == imageId || order == 0 {
      AlreadyMainUnchanged(images, imageId, Some(m));
    } else if v == 0 {
      assert t == (s - {m}) + {imageId};
      ExchangeKeepsSize(s, m, imageId);
    } else if v == order {
      assert t == (s - {imageId}) + {m};
      ExchangeKeepsSize(s, imageId, m);
    } else {
      assert t == s;
    }
  }

  /** On an image that is already main, `setAsMain` changes nothing, whichever
      main image it finds; so a second call after a first one changes nothing. */
  lemma AlreadyMainUnchanged(images: map<ImageId, SuitImage>, imageId: ImageId, main: Option<ImageId>)
    requires imageId in images && imageId in MainImages(images, images[imageId].suitId)
    requires main.Some? ==> main.value in MainImages(images, images[imageId].suitId)
    ensures Swapped(images, imageId, main) == images
  {
    var after := Swapped(images, imageId, main);
    forall id | id in images ensures after[id] == images[id] {
    }
  }

  /** `setAsMain` is idempotent. */
  lemma SetAsMainIdempotent(images: map<ImageId, SuitImage>, imageId: ImageId, first: Option<ImageId>, second: Option<ImageId>)
    requires imageId in images
    requires second.Some? ==> second.value in MainImages(Swapped(images, imageId, first), images[imageId].suitId)
    ensures Swapped(Swapped(images, imageId, first), imageId, second) == Swapped(images, imageId, first)
  {
    SwappedMakesMain(images, imageId, first);
    AlreadyMainUnchanged(Swapped(images, imageId, first), imageId, second);
  }
}
