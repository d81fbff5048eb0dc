/** The suit endpoints that touch bookings and images: the availability
    calendar, image upload and deletion with their `sort_order` numbering,
    and the owner guards of `show`, `update` and `destroy`. */
module SuitController {
  import opened Common
  import opened Schema
  import opened Paths
  import RentalController

  // ---------------------------------------------------------------- availability

  /** The `day` of every row with id below `n` whose rental is an active rental
      of the suit, in id order, repeats included (`whereHas(...)->pluck('day')`). */
  function PluckActiveDays(rentals: map<RentalId, Rental>, days: map<RentalDayId, RentalDay>, suitId: SuitId, n: nat): (r: seq<Day>)
    ensures forall d :: d in r <==>
      exists id :: id < n && id in days && IsActiveRentalOf(rentals, days[id].rentalId, suitId) && days[id].day == d
  {
    if n == 0 then []
    else
      var init := PluckActiveDays(rentals, days, suitId, n - 1);
      var id := n - 1;
      if id in days && IsActiveRentalOf(rentals, days[id].rentalId, suitId) then init + [days[id].day] else init
  }

  /** `getAvailability`: the days held by the suit's active rentals, each once. */
  function GetAvailability(db: Database, suitId: SuitId): (r: Result<seq<Day>>)
    reads db
    requires db.Valid()
    ensures suitId !in db.suits ==> r == Err(NotFound)
    ensures suitId in db.suits ==> r.Ok? && NoDup(r.value)
    ensures suitId in db.suits ==> forall d :: d in r.value <==> d in ActiveDays(db.rentals, db.days, suitId)
  {
    if suitId !in db.suits then Err(NotFound)
    else Ok(Unique(PluckActiveDays(db.rentals, db.days, suitId, db.nextDayId)))
  }

  /** The calendar and the booking check agree: a requested date conflicts
      exactly when its day is listed as unavailable. */
  lemma AvailabilityMatchesConflictCheck(db: Database, suitId: SuitId, dates: seq<DateInput>)
    requires db.Valid() && suitId in db.suits
    ensures forall d :: d in RentalController.Conflicting(dates, ActiveDays(db.rentals, db.days, suitId))
                        <==> d in dates && Normalize(d) in GetAvailability(db, suitId).value
  {
  }

  // ---------------------------------------------------------------- image ordering

  /** `m` is the largest `sort_order` among the suit's images with ids in `ids`, or None when there are none. */
  predicate MaxOver(images: map<ImageId, SuitImage>, ids: set<ImageId>, suitId: SuitId, m: Option<int>)
    requires ids <= images.Keys
  {
    && (m.None? <==> forall id :: id in ids ==> images[id].suitId != suitId)
    && (m.Some? ==> exists id :: id in ids && images[id].suitId == suitId && images[id].sortOrder == m.value)
    && (m.Some? ==> forall id :: id in ids && images[id].suitId == suitId ==> images[id].sortOrder <= m.value)
  }

  /** `m` is `$suit->images()->max('sort_order')`: None when the suit has no image. */
  predicate IsMaxOrder(images: map<ImageId, SuitImage>, suitId: SuitId, m: Option<int>) {
    MaxOver(images, images.Keys, suitId, m)
  }

  /** The largest `sort_order` of the suit's images, found by one pass over the table. */
  method MaxSortOrder(db: Database, suitId: SuitId) returns (m: Option<int>)
    ensures IsMaxOrder(db.images, suitId, m)
  {
    m := None;
    var todo := db.images.Keys;
    while todo != {}
      invariant todo <= db.images.Keys
      invariant MaxOver(db.images, db.images.Keys - todo, suitId, m)
      decreases todo
    {
      var id :| id in todo;
      var img := db.images[id];
      if img.suitId == suitId && (m.None? || img.sortOrder > m.value) {
        m := Some(img.sortOrder);
      }
      todo := todo - {id};
    }
  }

  /** The order the first uploaded image receives: the maximum plus one, or 0 (`max(...) ?? -1`, then `++`). */
  function StartOrder(m: Option<int>): int {
    (if m.Some? then m.value else -1) + 1
  }

  /** The row of an uploaded image: stored as `suits/{suit_id}/{order}.{ext}` with that order. */
  function UploadedImage(suitId: SuitId, order: int, ext: string): SuitImage {
    SuitImage(suitId, ImagePath(suitId, order, ext), order)
  }

  /** The rows of a batch of uploads whose first order is `start`, in upload order. */
  function NewImages(suitId: SuitId, start: int, exts: seq<string>): (r: seq<SuitImage>)
    ensures |r| == |exts|
    ensures forall k :: 0 <= k < |r| ==> r[k].suitId == suitId && r[k].sortOrder == start + k
  {
    seq(|exts|, k requires 0 <= k < |exts| => UploadedImage(suitId, start + k, exts[k]))
  }

  /** The rows an upload of `exts` adds, under consecutive ids from `base`. */
  function Uploaded(base: nat, suitId: SuitId, start: int, exts: seq<string>): map<ImageId, SuitImage> {
    Keyed(base, NewImages(suitId, start, exts))
  }

  /** `uploadImages`: the owner adds images whose orders continue after the
      current maximum, each stored as `suits/{suit_id}/{order}.{ext}`. */
  method UploadImages(db: Database, actor: Actor, suitId: SuitId, exts: seq<string>) returns (r: Result<seq<ImageId>>)
    requires db.Valid()
    modifies db`images, db`nextImageId
    ensures db.Valid()
    ensures suitId !in db.suits ==> r == Err(NotFound)
    ensures suitId in db.suits && db.suits[suitId].adminId != actor.id ==> r == Err(Forbidden)
    ensures (suitId in db.suits && db.suits[suitId].adminId == actor.id && exts == []) ==> r == Err(ValidationFailed)
    ensures r.Err? ==> db.images == old(db.images) && db.nextImageId == old(db.nextImageId)
    ensures (suitId in db.suits && db.suits[suitId].adminId == actor.id && exts != []) ==>
              && r.Ok? && |r.value| == |exts|
              && (forall k :: 0 <= k < |exts| ==> r.value[k] == old(db.nextImageId) + k)
              && db.nextImageId == old(db.nextImageId) + |exts|
              && exists m :: IsMaxOrder(old(db.images), suitId, m)
                             && db.images == old(db.images) + Uploaded(old(db.nextImageId), suitId, StartOrder(m), exts)
  {
    if suitId !in db.suits {
      return Err(NotFound);
    }
    if db.suits[suitId].adminId != actor.id {
      return Err(Forbidden);
    }
    if exts == [] {
      return Err(ValidationFailed);
    }
    var currentMax := MaxSortOrder(db, suitId);
    var currentMaxOrder := if currentMax.Some? then currentMax.value else -1;
    StoredImagesValid(db.suits, db.images, db.nextImageId, NewImages(suitId, currentMaxOrder + 1, exts));
    assert StartOrder(currentMax) == currentMaxOrder + 1;
    r := CreateImages(db, suitId, currentMaxOrder, exts);
  }

  /** The loop of `uploadImages`: each image takes the next order after
      `currentMaxOrder` and the next image id. */
  method CreateImages(db: Database, suitId: SuitId, currentMaxOrder: int, exts: seq<string>) returns (r: Result<seq<ImageId>>)
    requires forall id :: id in db.images ==> id < db.nextImageId
    modifies db`images, db`nextImageId
    ensures r.Ok? && |r.value| == |exts|
    ensures forall k :: 0 <= k < |exts| ==> r.value[k] == old(db.nextImageId) + k
    ensures db.nextImageId == old(db.nextImageId) + |exts|
    ensures db.images == old(db.images) + Uploaded(old(db.nextImageId), suitId, currentMaxOrder + 1, exts)
  {
    ghost var base, before := db.nextImageId, db.images;
    ghost var rows := NewImages(suitId, currentMaxOrder + 1, exts);
    var ids: seq<ImageId> := [];
    var order := currentMaxOrder;
    for k := 0 to |exts|
      invariant db.nextImageId == base + k && order == currentMaxOrder + k
      invariant |ids| == k && forall i :: 0 <= i < k ==> ids[i] == base + i
      invariant db.images == before + Keyed(base, rows[..k])
      invariant forall id :: id in before ==> id < base
    {
      order := order + 1;
      var image := UploadedImage(suitId, order, exts[k]);
      assert image == rows[k];
      KeyedExtend(db.images, before, base, rows, k);
      var id := InsertImage(db, image);
      ids := ids + [id];
    }
    assert rows[..|exts|] == rows;
    r := Ok(ids);
  }

  /** `SuitImage::create`: stores one row under the next id. */
  method InsertImage(db: Database, image: SuitImage) returns (id: ImageId)
    modifies db`images, db`nextImageId
    ensures id == old(db.nextImageId) && db.nextImageId == id + 1
    ensures db.images == old(db.images)[id := image]
  {
    id := db.nextImageId;
    db.images := db.images[id := image];
    db.nextImageId := id + 1;
  }

  /** Rows of existing suits stored under fresh consecutive ids keep the image table valid. */
  lemma StoredImagesValid(suits: map<SuitId, Suit>, images: map<ImageId, SuitImage>, base: nat, rows: seq<SuitImage>)
    requires ImagesValid(suits, images, base)
    requires forall k :: 0 <= k < |rows| ==> rows[k].suitId in suits
    ensures ImagesValid(suits, images + Keyed(base, rows), base + |rows|)
  {
    var added := Keyed(base, rows);
    forall id | id in added ensures added[id].suitId in suits {
      assert added[id] == rows[id - base];
    }
  }

  /** Some image of the suit has order `k`. */
  ghost predicate HasOrder(images: map<ImageId, SuitImage>, suitId: SuitId, k: int) {
    exists id :: id in images && images[id].suitId == suitId && images[id].sortOrder == k
  }

  /** The suit's orders are exactly `0 .. n-1`, each held by one image. */
  ghost predicate Contiguous(images: map<ImageId, SuitImage>, suitId: SuitId, n: nat) {
    && (forall id :: id in images && images[id].suitId == suitId ==> 0 <= images[id].sortOrder < n)
    && (forall k :: 0 <= k < n ==> HasOrder(images, suitId, k))
    && (forall i, j :: i in images && j in images && i != j && images[i].suitId == suitId && images[j].suitId == suitId
          ==> images[i].sortOrder != images[j].sortOrder)
  }

  /** On contiguous orders `0 .. n-1`, an upload starts at `n`. */
  lemma StartOrderOfContiguous(images: map<ImageId, SuitImage>, suitId: SuitId, n: nat, m: Option<int>)
    requires Contiguous(images, suitId, n) && IsMaxOrder(images, suitId, m)
    ensures StartOrder(m) == n
  {
    if n > 0 {
      assert HasOrder(images, suitId, n - 1);
      var top :| top in images && images[top].suitId == suitId && images[top].sortOrder == n - 1;
    }
  }

  /** Rows of the suit with orders `n, n+1, ...` stored after contiguous orders `0 .. n-1` keep them contiguous. */
  lemma AppendRowsExtendsContiguous(images: map<ImageId, SuitImage>, suitId: SuitId, n: nat, base: nat, rows: seq<SuitImage>)
    requires Contiguous(images, suitId, n)
    requires forall id :: id in images ==> id < base
    requires forall k :: 0 <= k < |rows| ==> rows[k].suitId == suitId && rows[k].sortOrder == n + k
    ensures Contiguous(images + Keyed(base, rows), suitId, n + |rows|)
  {
    var added := Keyed(base, rows);
    var after := images + added;
    forall k | 0 <= k < n + |rows| ensures HasOrder(after, suitId, k) {
      if k < n {
        assert HasOrder(images, suitId, k);
        var id :| id in images && images[id].suitId == suitId && images[id].sortOrder == k;
        assert after[id] == images[id];
      } else {
        assert after[base + k - n] == rows[k - n];
      }
    }
    forall i, j | i in after && j in after && i != j && after[i].suitId == suitId && after[j].suitId == suitId
      ensures after[i].sortOrder != after[j].sortOrder
    {
      if i in added && j !in added {
        assert after[j] == images[j];
      } else if j in added && i !in added {
        assert after[i] == images[i];
      }
    }
  }

  /** An upload onto contiguous orders `0 .. n-1` yields contiguous orders `0 .. n+|exts|-1`. */
  lemma UploadExtendsContiguous(images: map<ImageId, SuitImage>, suitId: SuitId, n: nat, base: nat, exts: seq<string>)
    requires Contiguous(images, suitId, n)
    requires forall id :: id in images ==> id < base
    ensures Contiguous(images + Uploaded(base, suitId, n, exts), suitId, n + |exts|)
  {
    AppendRowsExtendsContiguous(images, suitId, n, base, NewImages(suitId, n, exts));
  }

  /** The image's path is `suits/{suit_id}/{sort_order}.{its own extension}`. */
  ghost predicate WellNamedImage(img: SuitImage) {
    img.imagePath == ImagePath(img.suitId, img.sortOrder, Extension(img.imagePath))
  }

  /** Every stored path is in step with its row. */
  ghost predicate WellNamed(images: map<ImageId, SuitImage>) {
    forall id :: id in images ==> WellNamedImage(images[id])
  }

  /** An uploaded image is well named when its extension holds no dot and no slash. */
  lemma UploadedImageWellNamed(suitId: SuitId, order: int, ext: string)
    requires '.' !in ext && '/' !in ext
    ensures WellNamedImage(UploadedImage(suitId, order, ext))
  {
    ExtensionOfImagePath(suitId, order, ext);
  }

  /** Storing well-named rows keeps the table well named. */
  lemma AppendRowsKeepsWellNamed(images: map<ImageId, SuitImage>, base: nat, rows: seq<SuitImage>)
    requires WellNamed(images)
    requires forall k :: 0 <= k < |rows| ==> WellNamedImage(rows[k])
    ensures WellNamed(images + Keyed(base, rows))
  {
    var added := Keyed(base, rows);
    forall id | id in images + added ensures WellNamedImage((images + added)[id]) {
      if id in added {
        assert added[id] == rows[id - base];
      }
    }
  }

  /** Uploads keep every path in step with its row. */
  lemma UploadKeepsWellNamed(images: map<ImageId, SuitImage>, base: nat, suitId: SuitId, start: int, exts: seq<string>)
    requires WellNamed(images)
    requires forall k :: 0 <= k < |exts| ==> '.' !in exts[k] && '/' !in exts[k]
    ensures WellNamed(images + Uploaded(base, suitId, start, exts))
  {
    NewImagesWellNamed(suitId, start, exts);
    AppendRowsKeepsWellNamed(images, base, NewImages(suitId, start, exts));
  }

  /** Every row of an upload is well named. */
  lemma NewImagesWellNamed(suitId: SuitId, start: int, exts: seq<string>)
    requires forall k :: 0 <= k < |exts| ==> '.' !in exts[k] && '/' !in exts[k]
    ensures forall k :: 0 <= k < |exts| ==> WellNamedImage(NewImages(suitId, start, exts)[k])
  {
    var rows := NewImages(suitId, start, exts);
    forall k | 0 <= k < |exts| ensures WellNamedImage(rows[k]) {
      assert rows[k] == UploadedImage(suitId, start + k, exts[k]);
      UploadedImageWellNamed(suitId, start + k, exts[k]);
    }
  }

  /** An image moved one place down: order minus one, path rebuilt with the old extension. */
  function Reindexed(img: SuitImage): SuitImage {
    var newOrder := img.sortOrder - 1;
    img.(sortOrder := newOrder, imagePath := ImagePath(img.suitId, newOrder, Extension(img.imagePath)))
  }

  /** The image comes after the deleted one among the suit's images (`where('sort_order', '>', $deletedOrder)`). */
  predicate Shifts(img: SuitImage, suitId: SuitId, deletedOrder: int) {
    img.suitId == suitId && img.sortOrder > deletedOrder
  }

  /** The table while the reindexing loop runs: the later images not in `pending` have moved. */
  function PartlyReindexed(images: map<ImageId, SuitImage>, suitId: SuitId, deletedOrder: int, pending: set<ImageId>): map<ImageId, SuitImage> {
    map id | id in images ::
      if id !in pending && Shifts(images[id], suitId, deletedOrder) then Reindexed(images[id]) else images[id]
  }

  /** The image table after `deleteImage` removed `imageId` and moved every later image of the suit down one place. */
  function AfterDelete(images: map<ImageId, SuitImage>, suitId: SuitId, imageId: ImageId): map<ImageId, SuitImage>
    requires imageId in images
  {
    PartlyReindexed(images - {imageId}, suitId, images[imageId].sortOrder, {})
  }

  /** One step of the reindexing loop moves one pending image. */
  lemma ReindexStep(images: map<ImageId, SuitImage>, suitId: SuitId, deletedOrder: int, pending: set<ImageId>, id: ImageId)
    requires id in pending && id in images && Shifts(images[id], suitId, deletedOrder)
    ensures PartlyReindexed(images, suitId, deletedOrder, pending - {id})
         == PartlyReindexed(images, suitId, deletedOrder, pending)[id := Reindexed(images[id])]
  {
  }

  /** The reindexing loop: every image of the suit after `deletedOrder` moves down one place and is renamed. */
  method CloseGap(db: Database, suitId: SuitId, deletedOrder: int)
    modifies db`images
    ensures db.images == PartlyReindexed(old(db.images), suitId, deletedOrder, {})
  {
    ghost var before := db.images;
    var remaining := set id | id in db.images && Shifts(db.images[id], suitId, deletedOrder);
    assert db.images == PartlyReindexed(before, suitId, deletedOrder, remaining);
    while remaining != {}
      invariant remaining <= before.Keys
      invariant forall id :: id in remaining ==> Shifts(before[id], suitId, deletedOrder)
      invariant db.images == PartlyReindexed(before, suitId, deletedOrder, remaining)
      decreases remaining
    {
      var id :| id in remaining;
      ReindexStep(before, suitId, deletedOrder, remaining, id);
      db.images := db.images[id := Reindexed(db.images[id])];
      remaining := remaining - {id};
    }
  }

  /** `deleteImage`: the owner deletes one of the suit's images; the later images of the suit close the gap. */
  method DeleteImage(db: Database, actor: Actor, suitId: SuitId, imageId: ImageId) returns (r: Result<ImageId>)
    requires db.Valid()
    modifies db`images
    ensures db.Valid()
    ensures suitId !in db.suits || imageId !in old(db.images) ==> r == Err(NotFound)
    ensures (suitId in db.suits && imageId in old(db.images)
             && (db.suits[suitId].adminId != actor.id || old(db.images)[imageId].suitId != suitId)) ==> r == Err(Forbidden)
    ensures r.Err? ==> db.images == old(db.images)
    ensures (suitId in db.suits && imageId in old(db.images)
             && db.suits[suitId].adminId == actor.id && old(db.images)[imageId].suitId == suitId) ==>
              r == Ok(imageId) && db.images == AfterDelete(old(db.images), suitId, imageId)
  {
    if suitId !in db.suits || imageId !in db.images {
      return Err(NotFound);
    }
    if db.suits[suitId].adminId != actor.id || db.images[imageId].suitId != suitId {
      return Err(Forbidden);
    }
    var deletedOrder := db.images[imageId].sortOrder;
    db.images := db.images - {imageId};
    CloseGap(db, suitId, deletedOrder);
    ReindexKeepsImagesValid(db.suits, old(db.images), db.nextImageId, suitId, imageId);
    r := Ok(imageId);
  }

  /** Deleting and reindexing keeps every image attached to its suit. */
  lemma ReindexKeepsImagesValid(suits: map<SuitId, Suit>, images: map<ImageId, SuitImage>, nextImageId: nat, suitId: SuitId, imageId: ImageId)
    requires ImagesValid(suits, images, nextImageId) && imageId in images
    ensures ImagesValid(suits, AfterDelete(images, suitId, imageId), nextImageId)
  {
  }

  /** Deleting an image from contiguous orders `0 .. n-1` leaves contiguous orders `0 .. n-2`. */
  lemma ReindexKeepsContiguous(images: map<ImageId, SuitImage>, suitId: SuitId, n: nat, imageId: ImageId)
    requires Contiguous(images, suitId, n)
    requires imageId in images && images[imageId].suitId == suitId
    ensures n > 0 && Contiguous(AfterDelete(images, suitId, imageId), suitId, n - 1)
  {
    var deleted := images[imageId].sortOrder;
    var after := AfterDelete(images, suitId, imageId);
    forall k | 0 <= k < n - 1 ensures HasOrder(after, suitId, k) {
      var holder := if k < deleted then k else k + 1;
      assert HasOrder(images, suitId, holder);
      var id :| id in images && images[id].suitId == suitId && images[id].sortOrder == holder;
      assert id != imageId && after[id].sortOrder == k;
    }
    forall id | id in after && after[id].suitId == suitId ensures 0 <= after[id].sortOrder < n - 1 {
      assert images[id].sortOrder != deleted;
    }
    forall i, j | i in after && j in after && i != j && after[i].suitId == suitId && after[j].suitId == suitId
      ensures after[i].sortOrder != after[j].sortOrder
    {
      assert images[i].sortOrder != deleted && images[j].sortOrder != deleted;
    }
  }

  /** A moved image keeps its extension and moves down exactly one place. */
  lemma ReindexKeepsExtension(img: SuitImage)
    ensures Reindexed(img).sortOrder == img.sortOrder - 1
    ensures Extension(Reindexed(img).imagePath) == Extension(img.imagePath)
  {
    ExtensionClean(img.imagePath);
    ExtensionOfImagePath(img.suitId, img.sortOrder - 1, Extension(img.imagePath));
  }

  /** Deleting an image keeps every path in step with its order. */
  lemma DeleteKeepsWellNamed(images: map<ImageId, SuitImage>, suitId: SuitId, imageId: ImageId)
    requires WellNamed(images) && imageId in images
    ensures WellNamed(AfterDelete(images, suitId, imageId))
  {
    var after := AfterDelete(images, suitId, imageId);
    forall id | id in after ensures WellNamedImage(after[id]) {
      if after[id] != images[id] {
        ReindexKeepsExtension(images[id]);
      }
    }
  }

  // ---------------------------------------------------------------- guards

  /** `show`: an inactive suit is hidden from everyone but its owner. */
  function Show(db: Database, actor: Actor, suitId: SuitId): (r: Result<Suit>)
    reads db
    ensures r.Ok? <==> suitId in db.suits && (db.suits[suitId].isActive || db.suits[suitId].adminId == actor.id)
    ensures r.Ok? ==> r.value == db.suits[suitId]
    ensures r.Err? ==> r.error == NotFound
  {
    if suitId !in db.suits then Err(NotFound)
    else
      var suit := db.suits[suitId];
      if !suit.isActive && suit.adminId != actor.id then Err(NotFound) else Ok(suit)
  }

  /** The body of a suit `update` request, reduced to the fields the booking logic reads. */
  datatype SuitUpdate = SuitUpdate(pricePerDay: Option<Cents>, status: Option<SuitStatus>, isActive: Option<bool>)

  /** The validation rules of `update`: a price is not negative; a status is `available` or `unavailable`. */
  predicate SuitUpdateValid(upd: SuitUpdate) {
    && (upd.pricePerDay.Some? ==> upd.pricePerDay.value >= 0)
    && (upd.status.Some? ==> upd.status.value in {Available, Unavailable})
  }

  /** The suit after `$suit->update($validated)`: only the fields present change. */
  function ApplySuitUpdate(suit: Suit, upd: SuitUpdate): Suit {
    suit.(
      pricePerDay := if upd.pricePerDay.Some? then upd.pricePerDay.value else suit.pricePerDay,
      status := if upd.status.Some? then upd.status.value else suit.status,
      isActive := if upd.isActive.Some? then upd.isActive.value else suit.isActive)
  }

  /** `update`: only the owner changes a suit, and never marks it `rented`. */
  method Update(db: Database, actor: Actor, suitId: SuitId, upd: SuitUpdate) returns (r: Result<Suit>)
    requires db.Valid()
    modifies db`suits
    ensures db.Valid()
    ensures suitId !in old(db.suits) ==> r == Err(NotFound)
    ensures suitId in old(db.suits) && old(db.suits)[suitId].adminId != actor.id ==> r == Err(Forbidden)
    ensures (suitId in old(db.suits) && old(db.suits)[suitId].adminId == actor.id && !SuitUpdateValid(upd)) ==> r == Err(ValidationFailed)
    ensures r.Err? ==> db.suits == old(db.suits)
    ensures (suitId in old(db.suits) && old(db.suits)[suitId].adminId == actor.id && SuitUpdateValid(upd)) ==>
              && r == Ok(ApplySuitUpdate(old(db.suits)[suitId], upd))
              && db.suits == old(db.suits)[suitId := r.value]
    ensures r.Ok? ==> r.value.adminId == actor.id
    ensures r.Ok? ==> r.value.pricePerDay >= 0 || r.value.pricePerDay == old(db.suits)[suitId].pricePerDay
    ensures r.Ok? && r.value.status == Rented ==> old(db.suits)[suitId].status == Rented
  {
    if suitId !in db.suits {
      return Err(NotFound);
    }
    var suit := db.suits[suitId];
    if suit.adminId != actor.id {
      return Err(Forbidden);
    }
    if !SuitUpdateValid(upd) {
      return Err(ValidationFailed);
    }
    var updated := ApplySuitUpdate(suit, upd);
    db.suits := db.suits[suitId := updated];
    r := Ok(updated);
  }

  /** Some rental of the suit is active (`rentals()->whereIn('status', ['active'])->exists()`). */
  predicate HasActiveRental(rentals: map<RentalId, Rental>, suitId: SuitId) {
    exists id :: id in rentals && rentals[id].suitId == suitId && rentals[id].status.Name() in {"active"}
  }

  /** The rentals left once the suit's rentals are deleted. */
  function RentalsWithoutSuit(rentals: map<RentalId, Rental>, suitId: SuitId): map<RentalId, Rental> {
    map id | id in rentals && rentals[id].suitId != suitId :: rentals[id]
  }

  /** The day rows left once every row of a deleted rental is deleted. */
  function DaysOfRentals(days: map<RentalDayId, RentalDay>, rentals: map<RentalId, Rental>): map<RentalDayId, RentalDay> {
    map id | id in days && days[id].rentalId in rentals :: days[id]
  }

  /** The images left once the suit's images are deleted. */
  function ImagesWithoutSuit(images: map<ImageId, SuitImage>, suitId: SuitId): map<ImageId, SuitImage> {
    map id | id in images && images[id].suitId != suitId :: images[id]
  }

  /** The cascade of a suit deletion keeps every foreign key, keeps every active
      rental when none is of that suit, and cannot create a double booking. */
  lemma CascadeKeepsIntegrity(
    suits: map<SuitId, Suit>, rentals: map<RentalId, Rental>, days: map<RentalDayId, RentalDay>,
    images: map<ImageId, SuitImage>, nextRentalId: nat, nextDayId: nat, nextImageId: nat, suitId: SuitId)
    requires RentalsValid(suits, rentals, nextRentalId) && DaysValid(rentals, days, nextDayId)
    requires ImagesValid(suits, images, nextImageId)
    requires !HasActiveRental(rentals, suitId)
    ensures RentalsValid(suits - {suitId}, RentalsWithoutSuit(rentals, suitId), nextRentalId)
    ensures DaysValid(RentalsWithoutSuit(rentals, suitId), DaysOfRentals(days, RentalsWithoutSuit(rentals, suitId)), nextDayId)
    ensures ImagesValid(suits - {suitId}, ImagesWithoutSuit(images, suitId), nextImageId)
    ensures forall id :: id in rentals && rentals[id].status == Active ==> id in RentalsWithoutSuit(rentals, suitId)
    ensures NoDoubleBooking(rentals, days) ==>
              NoDoubleBooking(RentalsWithoutSuit(rentals, suitId), DaysOfRentals(days, RentalsWithoutSuit(rentals, suitId)))
  {
    forall id | id in rentals && rentals[id].status == Active ensures id in RentalsWithoutSuit(rentals, suitId) {
      assert rentals[id].status.Name() == "active";
    }
  }

  /** `destroy`: the owner deletes a suit that no active rental holds; its
      images, its (finished) rentals and their days go with it. */
  method Destroy(db: Database, actor: Actor, suitId: SuitId) returns (r: Result<SuitId>)
    requires db.Valid()
    modifies db`suits, db`rentals, db`days, db`images
    ensures db.Valid()
    ensures suitId !in old(db.suits) ==> r == Err(NotFound)
    ensures suitId in old(db.suits) && old(db.suits)[suitId].adminId != actor.id ==> r == Err(Forbidden)
    ensures (suitId in old(db.suits) && old(db.suits)[suitId].adminId == actor.id
             && HasActiveRental(old(db.rentals), suitId)) ==> r == Err(HasActiveRentals)
    ensures r.Err? ==> db.suits == old(db.suits) && db.rentals == old(db.rentals)
    ensures r.Err? ==> db.days == old(db.days) && db.images == old(db.images)
    ensures (suitId in old(db.suits) && old(db.suits)[suitId].adminId == actor.id
             && !HasActiveRental(old(db.rentals), suitId)) ==>
              && r == Ok(suitId)
              && db.suits == old(db.suits) - {suitId}
              && db.rentals == RentalsWithoutSuit(old(db.rentals), suitId)
              && db.days == DaysOfRentals(old(db.days), db.rentals)
              && db.images == ImagesWithoutSuit(old(db.images), suitId)
    ensures forall id :: id in old(db.rentals) && old(db.rentals)[id].status == Active ==> id in db.rentals
    ensures NoDoubleBooking(old(db.rentals), old(db.days)) ==> NoDoubleBooking(db.rentals, db.days)
  {
    if suitId !in db.suits {
      return Err(NotFound);
    }
    if db.suits[suitId].adminId != actor.id {
      return Err(Forbidden);
    }
    if HasActiveRental(db.rentals, suitId) {
      return Err(HasActiveRentals);
    }
    CascadeKeepsIntegrity(db.suits, db.rentals, db.days, db.images, db.nextRentalId, db.nextDayId, db.nextImageId, suitId);
    // Deleting the suit cascades to its images and rentals, and from the rentals to their days.
    db.suits := db.suits - {suitId};
    db.images := ImagesWithoutSuit(db.images, suitId);
    db.rentals := RentalsWithoutSuit(db.rentals, suitId);
    db.days := DaysOfRentals(db.days, db.rentals);
    r := Ok(suitId);
  }
}
