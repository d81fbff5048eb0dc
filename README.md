# WearSuit bookings: a Dafny model

WearSuit is a suit-rental marketplace. Admins (shop owners) list suits and book
them for clients. Each day is booked separately: a rental owns a set of
`rental_days` rows, one per calendar day. No two active rentals of one suit may
hold the same day.

This project models the part of the system that enforces that rule, together
with the logic that touches it. All code is Dafny, in seven modules.

- `Common` (`common.dfy`):
  - days as day numbers;
  - the sorting, filtering and de-duplicating helpers that the PHP collections and
    the JavaScript arrays provide.
- `Schema` (`schema.dfy`):
  - the tables `users`, `suits`, `rentals`, `rental_days` and `suit_images`, and
    their enums;
  - the class `Database`, which holds the tables as maps and has one
    auto-increment counter per table. Its `Valid()` states the foreign keys, the
    unique `(rental_id, day)` index and that every id was drawn from its counter;
  - the booking invariant `NoDoubleBooking`.
- `RentalController` (`rental_controller.dfy`):
  - `store`, with its validation, owner check and per-day conflict check;
  - the transaction that writes the rental and its day rows. It is rolled back
    when the unique index rejects the day rows;
  - `show`, `update` and `destroy`.
- `SuitController` (`suit_controller.dfy`):
  - the availability calendar;
  - image upload and deletion, with their `sort_order` numbering and the
    `suits/{suit_id}/{order}.{ext}` paths;
  - the owner guards of `show`, `update` and `destroy`, and the cascade of a
    suit deletion.
- `SuitImageModel` (`suit_image.dfy`): the `main` and `secondary` scopes of an
  image, and `setAsMain`.
- `Paths` (`paths.dfy`): building image paths and reading their extension back,
  as `pathinfo` does.
- `Reservation` (`reservation.dfy`): the day-picker state of the two admin
  "create reservation" screens, which share the same code. It covers:
  - toggling a day;
  - dropping the days that become unavailable, with the 60-day fallback search;
  - the earliest selected day;
  - the checks of the submit handler and the request it sends.

Every controller operation that writes is a module-level method that takes the
`Database`. Its `modifies` clause names either the fields it may change or the
whole `Database`; in the latter case its `ensures` state which tables and
counters stay the same. The read-only ones
(`show` of a rental or a suit, `getAvailability`) are functions that read it.
Each states:
- its result for every error path;
- the whole new state, in terms of specification functions;
- that it keeps `Valid()`, and that it keeps `NoDoubleBooking` where the source
  does.

The main results are these:
- `store` never creates a double booking, and a stored rental's price is its
  number of days times the daily rate.
- The availability calendar lists exactly the days that the conflict check
  rejects.
- Cancelling or completing a rental frees its days.
- `update` can double-book a day: reactivating a cancelled rental skips the
  conflict check (`ReactivationCanDoubleBook`).
- `destroy` on a rental looks for other rentals with statuses that no rental can
  have, so it always marks the suit available (`LegacyStatusesMatchNothing`).
- Uploads and deletions keep a suit's image orders contiguous (`0 .. n-1`), and
  keep every path in step with its order once that holds (`WellNamed`). Images
  created with a new suit by `SuitController::store` are saved under generated
  file names, so they do not have that property; it is preserved, not
  established.
- `setAsMain` swaps two orders and is idempotent.
- On the frontend, toggling and the unavailable-days effect keep the selection
  valid: non-empty, strictly ascending and not in the past. Toggling a day twice
  gives back the selection, and the effect is idempotent.

The authenticated user (the frontend's session check), the current day and the
current time are parameters.

Notes on the code's behaviour:
- `getAvailability` returns days in row order, de-duplicated but not sorted.
- The rental's `start_date` is computed but not mass-assignable, so the row
  receives the column default (the current date). `Rental.startDate` is modelled
  as `today`.
- Requested dates are a list, not a set. A list with a repeated day fails on the
  unique index, and the whole transaction rolls back.

## Model

| member | source | states |
|---|---|---|
| Common.SortSeq | frontend/app/rentals/createReservation.js:153 | The ascending sort used for ISO day strings (`sort()`): the result is sorted and is a permutation of the input. |
| Common.FilterNotIn | frontend/app/rentals/createReservation.js:61 | `filter(d => !drop.includes(d))` keeps exactly the elements not in `drop`. It is never longer than the input, and it is empty when every element is dropped. |
| Common.FilterNotInAppend | frontend/app/rentals/createReservation.js:61 | The filter works element by element: filtering a concatenation filters each part and concatenates the results, so the kept elements keep their order and their repeats. |
| Common.FilterNotInLength | frontend/app/rentals/createReservation.js:61-62 | The filter removes nothing exactly when no element is in `drop`, and it is then the identity. The effect's "unchanged" test relies on this. |
| Common.Unique | backend/app/Http/Controllers/API/SuitController.php:436-437 | `unique()->values()` has no repeats and the same members as its input. |
| Paths.IntToStringClean | backend/app/Http/Controllers/API/SuitController.php:265-271 | The decimal text of an order has no dot and no slash. |
| Paths.AfterLast | backend/app/Http/Controllers/API/SuitController.php:322 | The text after the last occurrence of a character. It is absent exactly when the character does not occur, and it never contains that character. |
| Paths.ExtensionClean | backend/app/Http/Controllers/API/SuitController.php:322 | A `pathinfo` extension has no dot and no slash. |
| Paths.AfterLastConcat | backend/app/Http/Controllers/API/SuitController.php:322-325 | In `a + c + b`, with `c` not in `b`, the text after the last `c` is `b`. |
| Paths.ExtensionOfImagePath | backend/app/Http/Controllers/API/SuitController.php:268-277 | The extension read back from a built `suits/{id}/{order}.{ext}` path is the extension it was built with. |
| Paths.Extension | backend/app/Http/Controllers/API/SuitController.php:322 | `pathinfo($path, PATHINFO_EXTENSION)`: what follows the last dot of the last path component, or nothing. Its properties are stated by ExtensionClean and ExtensionOfImagePath. |
| Schema.Database.constructor | backend/database/migrations/2025_12_13_225130_create_rental_days_table.php:13-18 | Empty tables satisfy the integrity invariant: foreign keys, the unique `(rental_id, day)` index and ids below the counters. |
| Schema.ParseRentalStatus | backend/app/Http/Controllers/API/RentalController.php:228 | The `in:active,completed,cancelled` rule: rejects exactly the strings outside the enum; an accepted string is the name of the status it yields. |
| Schema.RentalStatusRoundTrip | backend/app/Http/Controllers/API/RentalController.php:228 | Every status is accepted under the name it is stored under and reads back as itself. |
| Schema.ParsePaymentStatus | backend/app/Http/Controllers/API/RentalController.php:137 | The `in:unpaid,paid,refunded` rule: rejects exactly the strings outside the enum; an accepted string is the name of the payment status it yields. |
| Schema.PaymentStatusRoundTrip | backend/app/Http/Controllers/API/RentalController.php:230 | Every payment status is accepted under its stored name and reads back as itself. |
| RentalController.ParseUpdate | backend/app/Http/Controllers/API/RentalController.php:227-231 | Validation of `update` fails exactly when a present status or payment status names no enum value; otherwise the validated fields are exactly the present ones, notes unchanged (null allowed). |
| RentalController.PaymentOrUnpaid | backend/app/Http/Controllers/API/RentalController.php:176 | `payment_status ?? 'unpaid'`: unpaid when absent, otherwise the status with the given name. |
| RentalController.StoreRequestValid | backend/app/Http/Controllers/API/RentalController.php:131-138 | The validation rules of `store`: the suit and the client exist, at least one date, none before today, and a given payment status is one of the enum's. |
| RentalController.StartDate | backend/app/Http/Controllers/API/RentalController.php:148-149 | The first of the sorted dates is one of the requested days, and no requested day is earlier. |
| RentalController.Conflicting | backend/app/Http/Controllers/API/RentalController.php:350-370 | Exactly the requested dates whose day is booked are conflicts. |
| RentalController.ConflictingAppend | backend/app/Http/Controllers/API/RentalController.php:352-367 | The conflicts keep request order: the conflicts of a concatenation are the conflicts of its parts, concatenated. |
| RentalController.CheckDateConflicts | backend/app/Http/Controllers/API/RentalController.php:350-370 | The loop with one query per date returns exactly `Conflicting(dates, active days of the suit)`. |
| RentalController.CreateRentalDaysFromDates | backend/app/Http/Controllers/API/RentalController.php:326-341 | The single multi-row insert succeeds exactly when the rows are distinct and none exists yet. On success the rows are stored under fresh consecutive ids. On failure nothing changes. The table stays valid. |
| RentalController.StoredDaysValid | backend/app/Http/Controllers/API/RentalController.php:338-340 | Distinct new rows of an existing rental, stored under fresh ids, keep the day table valid. |
| RentalController.InsertRentalWithDays | backend/app/Http/Controllers/API/RentalController.php:166-186 | The transaction writes the rental and its rows, or on a repeated day rolls back to the exact prior state with a server error. On success the rental counter advances by one and the day counter by the number of dates. With no conflicts, it keeps `NoDoubleBooking`. |
| RentalController.NewRental | backend/app/Http/Controllers/API/RentalController.php:163-177 | The row `Rental::create` writes: active, priced `count(dates) * price_per_day`, created by the caller, with the payment status defaulting to unpaid and the start date the column default. |
| RentalController.Store | backend/app/Http/Controllers/API/RentalController.php:124-192 | The 403, 422 (validation, including an unknown payment status), 403 (not the owner), 422 (conflicts, listed in request order) and 500 paths, each with no change. On success: the new rental with price `count(dates) * price_per_day`, its day rows, the rental counter advanced by one and the day counter by the number of dates, nothing else changed, and `NoDoubleBooking` kept. |
| RentalController.RowsDistinctIffDaysDistinct | backend/database/migrations/2025_12_13_225130_create_rental_days_table.php:18 | The unique index rejects a request's rows exactly when two of its dates fall on the same day. |
| RentalController.NewRowsDistinctDays | backend/app/Http/Controllers/API/RentalController.php:326-341 | Two new rows of one request never share a day when its days are distinct. |
| RentalController.NewRowFree | backend/app/Http/Controllers/API/RentalController.php:153-160 | After a passed conflict check, no new row shares a day with an active rental of the same suit. |
| RentalController.StoreKeepsNoDoubleBooking | backend/app/Http/Controllers/API/RentalController.php:153-186 | With no conflicts and distinct days, storing the rental and its rows keeps every suit free of double bookings. |
| RentalController.StoredPriceMatchesDays | backend/app/Http/Controllers/API/RentalController.php:163-180 | A stored rental's days are exactly its requested days, and its price is the number of those days times the daily rate. |
| RentalController.Show | backend/app/Http/Controllers/API/RentalController.php:200-210 | Only the client, the creating admin or the suit owner sees the rental (403 otherwise, 404 when it is missing). |
| RentalController.CanManage | backend/app/Http/Controllers/API/RentalController.php:222 | The guard of `update` and `destroy`: the caller created the rental or owns its suit. |
| RentalController.ApplyUpdate | backend/app/Http/Controllers/API/RentalController.php:246 | `$rental->update($validated)`: the suit, the client, the creating admin, the start date and the price never change, and an empty update changes nothing. |
| RentalController.Update | backend/app/Http/Controllers/API/RentalController.php:219-249 | 404 and 403 change nothing, then 422 when validation fails, changing nothing. Otherwise only the given fields change. Cancelling resets the suit to available exactly when no other rental of it is active. `NoDoubleBooking` is kept unless a non-active rental is made active. |
| RentalController.StatusChangeKeepsNoDoubleBooking | backend/app/Http/Controllers/API/RentalController.php:227-246 | A change that makes no rental newly active cannot double-book. |
| RentalController.CancelFreesDays | backend/app/Http/Controllers/API/RentalController.php:234-246 | Once an active rental is completed or cancelled, none of its days is an active day of the suit any more. |
| RentalController.ReactivationCanDoubleBook | backend/app/Http/Controllers/API/RentalController.php:227-246 | A concrete state in which setting a cancelled rental back to `active` breaks `NoDoubleBooking`: no conflict check runs. |
| RentalController.LegacyStatusesMatchNothing | backend/app/Http/Controllers/API/RentalController.php:273-276 | No rental has status `pending` or `confirmed`, so `destroy`'s look-up never finds one. |
| RentalController.Destroy | backend/app/Http/Controllers/API/RentalController.php:257-286 | 404, 403 and 422 (completed or cancelled) change nothing. Otherwise the rental and its day rows are deleted and the suit is always marked available. `NoDoubleBooking` is kept. |
| SuitController.PluckActiveDays | backend/app/Http/Controllers/API/SuitController.php:428-432 | The plucked days are exactly the days of rows whose rental is an active rental of the suit. |
| SuitController.GetAvailability | backend/app/Http/Controllers/API/SuitController.php:425-444 | 404 for a missing suit. Otherwise a repeat-free list holding exactly the days of the suit's active rentals. |
| SuitController.AvailabilityMatchesConflictCheck | backend/app/Http/Controllers/API/SuitController.php:425-444 | A requested date conflicts in `store` exactly when its day is on the availability calendar. |
| SuitController.MaxSortOrder | backend/app/Http/Controllers/API/SuitController.php:260 | `max('sort_order')` is the largest order among the suit's images, or absent when the suit has none. |
| SuitController.StartOrder | backend/app/Http/Controllers/API/SuitController.php:260-265 | The first uploaded order: `(max ?? -1) + 1`. StartOrderOfContiguous states what it is on contiguous orders. |
| SuitController.NewImages | backend/app/Http/Controllers/API/SuitController.php:262-284 | One row per uploaded file, whose orders continue from the start order one by one. |
| SuitController.UploadImages | backend/app/Http/Controllers/API/SuitController.php:245-287 | 404, 403 (not the owner, checked before validation) and 422 (no file) change nothing. Otherwise the files get ids in sequence and orders `max + 1, max + 2, ...` (from 0 when there is none), with paths `suits/{id}/{order}.{ext}`. |
| SuitController.CreateImages | backend/app/Http/Controllers/API/SuitController.php:262-284 | The upload loop adds exactly the upload's rows, under consecutive ids. |
| SuitController.InsertImage | backend/app/Http/Controllers/API/SuitController.php:280-283 | `create` stores the row under the next id. |
| SuitController.StoredImagesValid | backend/app/Http/Controllers/API/SuitController.php:280-283 | Rows of existing suits, stored under fresh ids, keep the image table valid. |
| SuitController.StartOrderOfContiguous | backend/app/Http/Controllers/API/SuitController.php:260-265 | On orders `0 .. n-1` the first upload receives order `n`. |
| SuitController.AppendRowsExtendsContiguous | backend/app/Http/Controllers/API/SuitController.php:262-284 | Rows with orders `n, n+1, ...` added to orders `0 .. n-1` keep the orders contiguous. |
| SuitController.UploadExtendsContiguous | backend/app/Http/Controllers/API/SuitController.php:245-287 | An upload onto orders `0 .. n-1` leaves orders `0 .. n+k-1`, each held once. |
| SuitController.UploadedImageWellNamed | backend/app/Http/Controllers/API/SuitController.php:268-277 | An uploaded image's path is `suits/{id}/{order}.{ext}` with its own order and its own extension. |
| SuitController.AppendRowsKeepsWellNamed | backend/app/Http/Controllers/API/SuitController.php:280-283 | Storing well-named rows keeps every path in step with its row. |
| SuitController.UploadKeepsWellNamed | backend/app/Http/Controllers/API/SuitController.php:262-284 | Uploads keep every path in step with its order. |
| SuitController.NewImagesWellNamed | backend/app/Http/Controllers/API/SuitController.php:265-277 | Every row of an upload is well named. |
| SuitController.ReindexStep | backend/app/Http/Controllers/API/SuitController.php:319-337 | One pass of the reindexing loop moves exactly one more later image. |
| SuitController.Reindexed | backend/app/Http/Controllers/API/SuitController.php:321-336 | An image moved one place down: order minus one, path rebuilt from the folder, the new order and the old extension. ReindexKeepsExtension states its properties. |
| SuitController.CloseGap | backend/app/Http/Controllers/API/SuitController.php:314-337 | Every image of the suit after the deleted order moves down one place with a rebuilt path. All other images are untouched. |
| SuitController.DeleteImage | backend/app/Http/Controllers/API/SuitController.php:296-340 | 404, and 403 (not the owner, or an image of another suit), change nothing. Otherwise the image is removed, the later images close the gap, and the table stays valid. |
| SuitController.ReindexKeepsImagesValid | backend/app/Http/Controllers/API/SuitController.php:311-337 | Deleting and reindexing keeps every image attached to an existing suit. |
| SuitController.ReindexKeepsContiguous | backend/app/Http/Controllers/API/SuitController.php:302-337 | Deleting an image from orders `0 .. n-1` leaves orders `0 .. n-2`, each held once. |
| SuitController.ReindexKeepsExtension | backend/app/Http/Controllers/API/SuitController.php:321-325 | A moved image moves down exactly one place and keeps its extension. |
| SuitController.DeleteKeepsWellNamed | backend/app/Http/Controllers/API/SuitController.php:319-337 | Deletion keeps every path in step with its order. |
| SuitController.Show | backend/app/Http/Controllers/API/SuitController.php:137-142 | The suit is shown exactly when it is active or the caller owns it; otherwise 404. |
| SuitController.Update | backend/app/Http/Controllers/API/SuitController.php:182-204 | 404, 403 and 422 change nothing. Otherwise only the given fields change. The price stays non-negative, and the status never becomes `rented`. |
| SuitController.CascadeKeepsIntegrity | backend/app/Http/Controllers/API/SuitController.php:219-232 | With no active rental of the suit, the cascade keeps every foreign key and every active rental, and cannot create a double booking. |
| SuitController.Destroy | backend/app/Http/Controllers/API/SuitController.php:212-235 | 404, 403 and 422 (an active rental) change nothing. Otherwise the suit, its images, its rentals and their days are deleted, every active rental survives, and `NoDoubleBooking` is kept. |
| SuitImageModel.ScopeMain | backend/app/Models/SuitImage.php:28-31 | `scopeMain`: the image has order 0. |
| SuitImageModel.ScopeSecondary | backend/app/Models/SuitImage.php:33-36 | `scopeSecondary`: the image has an order above 0. |
| SuitImageModel.ScopesPartition | backend/app/Models/SuitImage.php:27-36 | No image is in both scopes. With non-negative orders, every image of the suit is in one of them. |
| SuitImageModel.SetAsMain | backend/app/Models/SuitImage.php:38-52 | The image found is one of the suit's main images, or none exists. The found image takes this image's order, this image takes 0, and the table stays valid. |
| SuitImageModel.SwappedMakesMain | backend/app/Models/SuitImage.php:41-49 | After the swap the image is main, the other images are untouched, and no suit or path changes. |
| SuitImageModel.SwapKeepsOrders | backend/app/Models/SuitImage.php:43-49 | With a main image present, every order value is held by as many of the suit's images after the swap as before. |
| SuitImageModel.AlreadyMainUnchanged | backend/app/Models/SuitImage.php:41-49 | On an image that is already main, `setAsMain` changes nothing. |
| SuitImageModel.SetAsMainIdempotent | backend/app/Models/SuitImage.php:38-52 | A second `setAsMain` on the same image changes nothing. |
| Reservation.IsPastDay | frontend/app/rentals/createReservation.js:132-134 | `isPastDay`: the day is before today; ISO strings compare as the days they name. |
| Reservation.ToggleDay | frontend/app/rentals/createReservation.js:136-155 | A day becomes selected or unselected exactly as the updater says: past days are ignored, the last day stays, and unavailable days are not added. All other days keep their membership. The suit-specific screen has the same code at frontend/app/rentals/CreateReservationForSuit.js:146-165. |
| Reservation.ToggleDayKeepsSelectionValid | frontend/app/rentals/createReservation.js:136-155 | Toggling keeps the selection non-empty, strictly ascending and free of past days. |
| Reservation.ToggleAddThenRemove | frontend/app/rentals/createReservation.js:146-153 | Adding a day and toggling it again gives back the selection. |
| Reservation.ToggleRemoveThenAdd | frontend/app/rentals/createReservation.js:146-153 | Removing a day and toggling it again gives back the selection. |
| Reservation.FirstFree | frontend/app/rentals/createReservation.js:69-79 | The first day of the 60-day window that is not unavailable, with every earlier day of the window unavailable. It is absent exactly when the whole window is unavailable. |
| Reservation.PickFallbackDay | frontend/app/rentals/createReservation.js:69-81 | The loop returns `FirstFree` of the window starting now. |
| Reservation.DropUnavailable | frontend/app/rentals/createReservation.js:58-82 | The updater the effect applies. The lemmas DropUnavailableNoop, DropUnavailableFilters and DropUnavailableFallback state its three cases. |
| Reservation.DropUnavailableNoop | frontend/app/rentals/createReservation.js:58-62 | When no selected day is unavailable, the effect keeps the selection. |
| Reservation.DropUnavailableFilters | frontend/app/rentals/createReservation.js:61-66 | When some selected day stays available, exactly the unavailable days are dropped. |
| Reservation.DropUnavailableFallback | frontend/app/rentals/createReservation.js:64-81 | When every selected day became unavailable, the first free day of the window replaces them, or the selection stays if there is none. |
| Reservation.UnavailableDaysEffect | frontend/app/rentals/createReservation.js:57-83 | The effect's updater computes `DropUnavailable`. The suit-specific screen has the same code at frontend/app/rentals/CreateReservationForSuit.js:66-92. |
| Reservation.DropUnavailableKeepsSelectionValid | frontend/app/rentals/createReservation.js:60-82 | The effect keeps a valid selection valid when the window does not start in the past. |
| Reservation.DropUnavailableClears | frontend/app/rentals/createReservation.js:60-82 | After the effect no selected day is unavailable, unless the whole window was unavailable. |
| Reservation.DropUnavailableIdempotent | frontend/app/rentals/createReservation.js:57-83 | Running the effect again on its result changes nothing, for every selection and every list of unavailable days. |
| Reservation.EarliestSelected | frontend/app/rentals/createReservation.js:127-130 | Absent (`''`) exactly for an empty selection, otherwise its least day. Same code at frontend/app/rentals/CreateReservationForSuit.js:137-140. |
| Reservation.EarliestOfValidSelection | frontend/app/rentals/createReservation.js:127-130 | On a valid selection, the earliest day is the first one. |
| Reservation.LeadingSpaces | frontend/app/rentals/createReservation.js:178 | The white space at the start of a string, and no more. |
| Reservation.TrailingSpaces | frontend/app/rentals/createReservation.js:200 | The white space at the end of a string, and no more. |
| Reservation.Trim | frontend/app/rentals/createReservation.js:178 | `trim()` yields the piece of the input that is left once only white space is removed at either end: no white space at its ends, and only white space before and after it. It is empty exactly when the input is all white space. |
| Reservation.TrimIdempotent | frontend/app/rentals/createReservation.js:200 | Trimming twice trims nothing more. |
| Reservation.HandleSubmit | frontend/app/rentals/createReservation.js:177-202 | The missing-fields alert shows exactly when the suit, the trimmed client or the dates are missing. Next, the unavailable-day alert shows exactly when a selected day is unavailable. Next, without a session token and the admin role, the user is sent to log in. Otherwise a request is sent. It carries the form's suit, client and payment status, a sorted permutation of the dates, and notes that are null exactly when they trim to nothing, otherwise trimmed. Same code at frontend/app/rentals/CreateReservationForSuit.js:184-209. |
| Reservation.SubmitValidSelection | frontend/app/rentals/createReservation.js:196-202 | From a valid selection the request carries the selection itself, without repeats, so the backend's unique index cannot reject it. |

## Left out

- Concurrency: two `store` calls can both pass the conflict check before either commits. Each operation is modelled as one atomic step, so this race is not represented.
- Authentication and middleware: on the backend the caller is an explicit `Actor` parameter, and route model binding becomes the 404 paths; on the frontend the session check is the `signedInAdmin` parameter of `HandleSubmit`.
- File storage (`storeAs`, `delete`, `move`) is not modelled; only the database rows and their paths are. Because `setAsMain` does not rename files, a later `deleteImage` can move one file onto another's name. That happens in storage, outside the model.
- Upload validation of the MIME type and the size (`image|mimes:...|max:2048`) is left out; an upload is a list of extensions.
- JSON response shaping, eager loading (`load`, `with`), the index endpoints, their filters and pagination are left out; they do not affect stored state.
- `isSuitAvailable`, `createRentalDays` and the commented-out `getAvailability` variant are never called, so they are not modelled.
- `SuitController.store` and the suit fields other than price, status and `is_active` (name, size, colour and so on) are not part of this model.
- RentalController.InsertRentalWithDays: after a rollback the model also restores the id counters. Whether an engine reuses auto-increment values after a rollback depends on the engine.
- SuitController.CloseGap: the rows move in no particular order. The source's `orderBy('sort_order')` only matters for the file renames, which are not modelled.
- SuitImageModel.SetAsMain: when several images of the suit have order 0, `first()` picks one of them. The model allows any of them and returns the choice.
- SuitImageModel.SetAsMain does not rename the image paths, so it does not keep the `WellNamed` property that uploads and deletions keep. No lemma claims that it does.
- Reservation.HandleSubmit: `Number(...)` conversion of the ids is left out; the payload carries the ids' text.
- Reservation.Trim: the Unicode white space and line terminators beyond ASCII that JavaScript's `trim` also removes are left out.
- JavaScript `Date` arithmetic, time zones and the ISO formatting of days are left out. Days are day numbers, and today and "now" are parameters.
- Request fields of the wrong JSON type (a number for `notes`, a string for a date) cannot be represented, so the 422 answers for them are not modelled; the enum rules and the rules on days, ids and counts are. The same holds for an explicit `null`: a present `"status": null` or `"payment_status": null` fails the `sometimes|required` rules of `update` with a 422, but `UpdateRequest` only distinguishes absent from present-with-a-value, so that 422 is not modelled either. (In `store`, `payment_status` is `nullable`, so a `null` there behaves as an absent field, which `StoreRequest` does model.)
- Schema.RentalsValid: the foreign keys from `rentals.user_id` and `rentals.admin_id` to `users` are not part of the invariant. No modelled operation deletes a user, and `store` only takes the client from `users`.
- Prices are integer cents rather than `decimal(8, 2)`, and the column's bound is not modelled: a total above 999999.99 does not fit `total_price`, which depending on the database engine is a server error or a silently altered value, while the model's `Store` always succeeds with the exact product.
- Dates are compared as days. The sort of raw request strings (`collect(...)->sort()`) is modelled as a sort of the normalised days, which agrees for `YYYY-MM-DD` strings.
- The frontend data-loading effects (suits, clients, the availability fetch) and navigation are left out; their results are the parameters of the reducer.
