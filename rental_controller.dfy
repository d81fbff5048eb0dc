/** The rental endpoints of the API: booking a suit for a set of whole days
    (`store`), the per-day conflict check, writing the day rows, changing
    (`update`), deleting (`destroy`) and viewing (`show`) a rental. */
module RentalController {
  import opened Common
  import opened Schema

  /** The body of a `store` request once parsed. */
  datatype StoreRequest = StoreRequest(
    suitId: SuitId,
    userId: UserId,
    dates: seq<DateInput>,
    notes: Option<string>,
    paymentStatus: Option<string>)

  /** The body of an `update` request as sent: each field is absent (None) or
      present; present notes may be null. */
  datatype UpdateRequest = UpdateRequest(
    status: Option<string>,
    notes: Option<Option<string>>,
    paymentStatus: Option<string>)

  /** The validated body of an `update` request. */
  datatype RentalUpdate = RentalUpdate(
    status: Option<RentalStatus>,
    notes: Option<Option<string>>,
    paymentStatus: Option<PaymentStatus>)

  /** `$request->validate` of `update`: a present status or payment status
      must name a value of its enum; otherwise the validated fields. */
  function ParseUpdate(req: UpdateRequest): (r: Option<RentalUpdate>)
    ensures r.None? <==> (req.status.Some? && req.status.value !in RentalStatusNames)
                         || (req.paymentStatus.Some? && req.paymentStatus.value !in PaymentStatusNames)
    ensures r.Some? ==> r.value.notes == req.notes
    ensures r.Some? ==> (r.value.status.Some? <==> req.status.Some?)
    ensures r.Some? && r.value.status.Some? ==> r.value.status.value.Name() == req.status.value
    ensures r.Some? ==> (r.value.paymentStatus.Some? <==> req.paymentStatus.Some?)
    ensures r.Some? && r.value.paymentStatus.Some? ==> r.value.paymentStatus.value.Name() == req.paymentStatus.value
  {
    var status := if req.status.Some? then ParseRentalStatus(req.status.value) else None;
    var payment := if req.paymentStatus.Some? then ParsePaymentStatus(req.paymentStatus.value) else None;
    if req.status.Some? && status.None? then None
    else if req.paymentStatus.Some? && payment.None? then None
    else Some(RentalUpdate(status, req.notes, payment))
  }

  /** `$validated['payment_status'] ?? 'unpaid'` on a validated payment status. */
  function PaymentOrUnpaid(p: Option<string>): (r: PaymentStatus)
    ensures p.None? ==> r == Unpaid
    ensures p.Some? && p.value in PaymentStatusNames ==> r.Name() == p.value
  {
    if p.None? then Unpaid
    else match ParsePaymentStatus(p.value)
      case Some(ps) => ps
      case None => Unpaid
  }

  /** The statuses `destroy` looks for among the suit's other rentals; no rental status has either name. */
  const LegacyBlockingStatuses: set<string> := {"pending", "confirmed"}

  /** The validation rules of `store`: the suit and the client exist, at
      least one date, none before today, and a payment status, if given, is one of the enum's. */
  predicate StoreRequestValid(suits: map<SuitId, Suit>, users: set<UserId>, req: StoreRequest, today: Day) {
    && req.suitId in suits
    && req.userId in users
    && |req.dates| >= 1
    && (forall k :: 0 <= k < |req.dates| ==> req.dates[k].day >= today)
    && (req.paymentStatus.Some? ==> req.paymentStatus.value in PaymentStatusNames)
  }

  /** The caller is an admin, the request is valid, and the caller owns the suit. */
  predicate Admitted(suits: map<SuitId, Suit>, users: set<UserId>, actor: Actor, req: StoreRequest, today: Day) {
    actor.role == Admin && StoreRequestValid(suits, users, req, today) && suits[req.suitId].adminId == actor.id
  }

  /** The requested days, normalised, in request order. */
  function RequestedDays(dates: seq<DateInput>): (r: seq<Day>)
    ensures |r| == |dates|
    ensures forall k :: 0 <= k < |dates| ==> r[k] == Normalize(dates[k])
  {
    seq(|dates|, k requires 0 <= k < |dates| => Normalize(dates[k]))
  }

  /** The start date `store` computes: the first of the sorted dates. It is
      passed to `Rental::create` but is not mass-assignable, so it is dropped. */
  function StartDate(dates: seq<DateInput>): (r: Day)
    requires |dates| > 0
    ensures r in RequestedDays(dates)
    ensures forall k :: 0 <= k < |dates| ==> r <= Normalize(dates[k])
  {
    var days := RequestedDays(dates);
    SortSeqFirstIsMin(days);
    assert forall k :: 0 <= k < |dates| ==> Normalize(dates[k]) in days;
    SortSeq(days)[0]
  }

  /** The requested dates whose day is in `booked`, in request order. */
  function Conflicting(dates: seq<DateInput>, booked: set<Day>): (r: seq<DateInput>)
    ensures |r| <= |dates|
    ensures forall d :: d in r <==> d in dates && Normalize(d) in booked
  {
    if dates == [] then []
    else
      var init := dates[..|dates| - 1];
      var last := dates[|dates| - 1];
      assert forall d :: d in dates <==> d in init || d == last;
      var rest := Conflicting(init, booked);
      if Normalize(last) in booked then rest + [last] else rest
  }

  /** The conflicts of a concatenation are the conflicts of each part, in order:
      the result keeps the request order. */
  lemma {:induction false} ConflictingAppend(a: seq<DateInput>, b: seq<DateInput>, booked: set<Day>)
    ensures Conflicting(a + b, booked) == Conflicting(a, booked) + Conflicting(b, booked)
  {
    if b == [] {
      assert a + b == a;
    } else {
      var b' := b[..|b| - 1];
      assert (a + b)[..|a + b| - 1] == a + b';
      assert (a + b)[|a + b| - 1] == b[|b| - 1];
      ConflictingAppend(a, b', booked);
    }
  }

  /** `checkDateConflicts`: one query per requested date, against the days of the active rentals of the suit. */
  method CheckDateConflicts(db: Database, suitId: SuitId, dates: seq<DateInput>) returns (conflicts: seq<DateInput>)
    ensures conflicts == Conflicting(dates, ActiveDays(db.rentals, db.days, suitId))
  {
    conflicts := [];
    for k := 0 to |dates|
      invariant conflicts == Conflicting(dates[..k], ActiveDays(db.rentals, db.days, suitId))
    {
      var hasConflict := exists id :: id in db.days && db.days[id].day == Normalize(dates[k])
                                      && IsActiveRentalOf(db.rentals, db.days[id].rentalId, suitId);
      assert hasConflict <==> Normalize(dates[k]) in ActiveDays(db.rentals, db.days, suitId);
      if hasConflict {
        conflicts := conflicts + [dates[k]];
      }
      assert dates[..k + 1] == dates[..k] + [dates[k]];
    }
    assert dates[..|dates|] == dates;
  }

  /** The day rows written for a rental, one per requested date. */
  function Rows(rentalId: RentalId, dates: seq<DateInput>): (r: seq<RentalDay>)
    ensures |r| == |dates|
  {
    seq(|dates|, k requires 0 <= k < |dates| => RentalDay(rentalId, Normalize(dates[k])))
  }

  /** `createRentalDaysFromDates`: builds one row per date, then inserts all of
      them with a single statement, which the unique `(rental_id, day)` index
      rejects as a whole when two rows collide. */
  method CreateRentalDaysFromDates(db: Database, rentalId: RentalId, dates: seq<DateInput>) returns (ok: bool)
    requires db.Valid() && rentalId in db.rentals
    modifies db`days, db`nextDayId
    ensures db.Valid()
    ensures ok <==> NoDup(Rows(rentalId, dates)) && forall k :: 0 <= k < |dates| ==> Rows(rentalId, dates)[k] !in old(db.days).Values
    ensures ok ==> db.days == old(db.days) + Keyed(old(db.nextDayId), Rows(rentalId, dates))
    ensures ok ==> db.nextDayId == old(db.nextDayId) + |dates|
    ensures !ok ==> db.days == old(db.days) && db.nextDayId == old(db.nextDayId)
  {
    var rows: seq<RentalDay> := [];
    for k := 0 to |dates|
      invariant rows == Rows(rentalId, dates[..k])
    {
      rows := rows + [RentalDay(rentalId, Normalize(dates[k]))];
    }
    assert dates[..|dates|] == dates;
    ok := NoDup(rows) && forall k :: 0 <= k < |rows| ==> rows[k] !in db.days.Values;
    if ok {
      StoredDaysValid(db.rentals, db.days, db.nextDayId, rows);
      db.days := db.days + Keyed(db.nextDayId, rows);
      db.nextDayId := db.nextDayId + |rows|;
    }
  }

  /** Distinct rows of an existing rental, none already present, stored under
      fresh consecutive ids keep the day table valid. */
  lemma StoredDaysValid(rentals: map<RentalId, Rental>, days: map<RentalDayId, RentalDay>, base: nat, rows: seq<RentalDay>)
    requires DaysValid(rentals, days, base)
    requires NoDup(rows) && forall k :: 0 <= k < |rows| ==> rows[k].rentalId in rentals && rows[k] !in days.Values
    ensures DaysValid(rentals, days + Keyed(base, rows), base + |rows|)
  {
    var added := Keyed(base, rows);
    var all := days + added;
    forall id | id in added ensures added[id].rentalId in rentals && added[id] !in days.Values {
      assert added[id] == rows[id - base];
    }
    forall i, j | i in all && j in all && i != j ensures all[i] != all[j] {
      if i in added && j in added {
        assert added[i] == rows[i - base] && added[j] == rows[j - base];
      } else if i in added {
        assert all[j] in days.Values;
      } else if j in added {
        assert all[i] in days.Values;
      }
    }
  }

  /** The rental row `store` writes. */
  function NewRental(suit: Suit, actor: Actor, req: StoreRequest, today: Day): Rental {
    Rental(
      req.suitId, req.userId, actor.id,
      today,
      |req.dates| * suit.pricePerDay,
      Active,
      req.notes,
      PaymentOrUnpaid(req.paymentStatus))
  }

  /** The `DB::transaction` of `store`: the rental row, then its day rows; when
      the day insert fails, both are rolled back. */
  method InsertRentalWithDays(db: Database, rental: Rental, dates: seq<DateInput>) returns (r: Result<RentalId>)
    requires db.Valid() && rental.suitId in db.suits
    modifies db`rentals, db`nextRentalId, db`days, db`nextDayId
    ensures db.Valid()
    ensures NoDup(RequestedDays(dates)) ==> r == Ok(old(db.nextRentalId))
    ensures !NoDup(RequestedDays(dates)) ==> r == Err(QueryFailed)
    ensures r.Err? ==> db.rentals == old(db.rentals) && db.days == old(db.days)
    ensures r.Err? ==> db.nextRentalId == old(db.nextRentalId) && db.nextDayId == old(db.nextDayId)
    ensures r.Ok? ==> r.value !in old(db.rentals) && db.rentals == old(db.rentals)[r.value := rental]
    ensures r.Ok? ==> db.days == old(db.days) + Keyed(old(db.nextDayId), Rows(r.value, dates))
    ensures r.Ok? ==> db.nextRentalId == old(db.nextRentalId) + 1 && db.nextDayId == old(db.nextDayId) + |dates|
    ensures NoDoubleBooking(old(db.rentals), old(db.days))
            && Conflicting(dates, old(ActiveDays(db.rentals, db.days, rental.suitId))) == []
            ==> NoDoubleBooking(db.rentals, db.days)
  {
    ghost var oldRentals, oldDays, base := db.rentals, db.days, db.nextDayId;
    var savedRentals, savedNextRentalId := db.rentals, db.nextRentalId;
    var id := db.nextRentalId;
    forall v | v in db.days.Values ensures v.rentalId != id {
      var j :| j in db.days && db.days[j] == v;
    }
    db.rentals := db.rentals[id := rental];
    db.nextRentalId := id + 1;
    var ok := CreateRentalDaysFromDates(db, id, dates);
    RowsDistinctIffDaysDistinct(id, dates);
    if !ok {
      db.rentals, db.nextRentalId := savedRentals, savedNextRentalId;
      return Err(QueryFailed);
    }
    assert db.rentals == oldRentals[id := rental];
    assert db.days == oldDays + Keyed(base, Rows(id, dates));
    if NoDoubleBooking(oldRentals, oldDays) && Conflicting(dates, ActiveDays(oldRentals, oldDays, rental.suitId)) == [] {
      assert forall i :: i in oldDays ==> i < base && oldDays[i].rentalId in oldRentals;
      StoreKeepsNoDoubleBooking(oldRentals, oldDays, base, id, rental, dates);
    }
    r := Ok(id);
  }

  /** `store`: only an admin who owns the suit books it, only for days that no
      active rental of the suit holds; the rental and its day rows are written
      in one transaction. */
  method Store(db: Database, actor: Actor, req: StoreRequest, today: Day) returns (r: Result<RentalId>)
    requires db.Valid()
    modifies db
    ensures db.Valid()
    ensures db.users == old(db.users) && db.suits == old(db.suits)
    ensures db.images == old(db.images) && db.nextImageId == old(db.nextImageId)
    ensures actor.role != Admin ==> r == Err(Forbidden)
    ensures actor.role == Admin && !StoreRequestValid(old(db.suits), old(db.users), req, today) ==> r == Err(ValidationFailed)
    ensures (actor.role == Admin && StoreRequestValid(old(db.suits), old(db.users), req, today)
             && old(db.suits)[req.suitId].adminId != actor.id) ==> r == Err(Forbidden)
    ensures Admitted(old(db.suits), old(db.users), actor, req, today) ==>
              var conflicts := Conflicting(req.dates, old(ActiveDays(db.rentals, db.days, req.suitId)));
              && (conflicts != [] ==> r == Err(DateConflicts(conflicts)))
              && (conflicts == [] && !NoDup(RequestedDays(req.dates)) ==> r == Err(QueryFailed))
              && (conflicts == [] && NoDup(RequestedDays(req.dates)) ==> r == Ok(old(db.nextRentalId)))
    ensures r.Err? ==> db.rentals == old(db.rentals) && db.days == old(db.days)
    ensures r.Err? ==> db.nextRentalId == old(db.nextRentalId) && db.nextDayId == old(db.nextDayId)
    ensures r.Ok? ==> r.value !in old(db.rentals)
    ensures r.Ok? ==> db.rentals == old(db.rentals)[r.value := NewRental(old(db.suits)[req.suitId], actor, req, today)]
    ensures r.Ok? ==> db.days == old(db.days) + Keyed(old(db.nextDayId), Rows(r.value, req.dates))
    ensures r.Ok? ==> db.nextRentalId == old(db.nextRentalId) + 1 && db.nextDayId == old(db.nextDayId) + |req.dates|
    ensures NoDoubleBooking(old(db.rentals), old(db.days)) ==> NoDoubleBooking(db.rentals, db.days)
  {
    if actor.role != Admin {
      return Err(Forbidden);
    }
    if !StoreRequestValid(db.suits, db.users, req, today) {
      return Err(ValidationFailed);
    }
    var suit := db.suits[req.suitId];
    if suit.adminId != actor.id {
      return Err(Forbidden);
    }
    // Computed and handed to `Rental::create`, which drops it: `start_date` is not mass-assignable.
    var startDate := StartDate(req.dates);
    var conflicts := CheckDateConflicts(db, req.suitId, req.dates);
    if conflicts != [] {
      return Err(DateConflicts(conflicts));
    }
    var totalPrice := |req.dates| * suit.pricePerDay;
    var rental := Rental(
      req.suitId, req.userId, actor.id, today, totalPrice, Active, req.notes,
      PaymentOrUnpaid(req.paymentStatus));
    r := InsertRentalWithDays(db, rental, req.dates);
  }

  /** The day rows of a stored request are distinct exactly when its days are. */
  lemma RowsDistinctIffDaysDistinct(rentalId: RentalId, dates: seq<DateInput>)
    ensures NoDup(Rows(rentalId, dates)) <==> NoDup(RequestedDays(dates))
  {
    var rows, ds := Rows(rentalId, dates), RequestedDays(dates);
    assert forall i, j :: 0 <= i < |dates| && 0 <= j < |dates| ==> (rows[i] == rows[j] <==> ds[i] == ds[j]);
  }

  /** Two new rows of one request never share a day when the request's days are distinct. */
  lemma NewRowsDistinctDays(base: nat, rid: RentalId, dates: seq<DateInput>, i: nat, j: nat)
    requires NoDup(RequestedDays(dates))
    requires i in Keyed(base, Rows(rid, dates)) && j in Keyed(base, Rows(rid, dates)) && i != j
    ensures Keyed(base, Rows(rid, dates))[i].day != Keyed(base, Rows(rid, dates))[j].day
  {
    assert Keyed(base, Rows(rid, dates))[i].day == RequestedDays(dates)[i - base];
    assert Keyed(base, Rows(rid, dates))[j].day == RequestedDays(dates)[j - base];
  }

  /** A new row never shares a day with a row of an active rental of the same suit when the conflict check passed. */
  lemma NewRowFree(
    rentals: map<RentalId, Rental>, days: map<RentalDayId, RentalDay>, suitId: SuitId,
    base: nat, rid: RentalId, dates: seq<DateInput>, i: nat, o: RentalDayId)
    requires Conflicting(dates, ActiveDays(rentals, days, suitId)) == []
    requires i in Keyed(base, Rows(rid, dates))
    requires o in days && IsActiveRentalOf(rentals, days[o].rentalId, suitId)
    ensures Keyed(base, Rows(rid, dates))[i].day != days[o].day
  {
    var k := i - base;
    assert Keyed(base, Rows(rid, dates))[i].day == Normalize(dates[k]);
    assert days[o].day in ActiveDays(rentals, days, suitId);
    assert dates[k] !in Conflicting(dates, ActiveDays(rentals, days, suitId));
  }

  /** A successful `store` keeps every suit free of double bookings. */
  lemma StoreKeepsNoDoubleBooking(
    rentals: map<RentalId, Rental>, days: map<RentalDayId, RentalDay>,
    base: nat, rid: RentalId, rental: Rental, dates: seq<DateInput>)
    requires NoDoubleBooking(rentals, days)
    requires forall i :: i in days ==> i < base && days[i].rentalId in rentals
    requires rid !in rentals
    requires Conflicting(dates, ActiveDays(rentals, days, rental.suitId)) == []
    requires NoDup(RequestedDays(dates))
    ensures NoDoubleBooking(rentals[rid := rental], days + Keyed(base, Rows(rid, dates)))
  {
    var added := Keyed(base, Rows(rid, dates));
    var rentals', days' := rentals[rid := rental], days + added;
    forall i, j |
      i in days' && j in days' && i != j && days'[i].day == days'[j].day &&
      days'[i].rentalId in rentals' && days'[j].rentalId in rentals' &&
      rentals'[days'[i].rentalId].status == Active && rentals'[days'[j].rentalId].status == Active
      ensures rentals'[days'[i].rentalId].suitId != rentals'[days'[j].rentalId].suitId
    {
      if i in added && j in added {
        NewRowsDistinctDays(base, rid, dates, i, j);
      } else if i in added {
        assert days'[j] == days[j] && rentals'[days[j].rentalId] == rentals[days[j].rentalId];
        if rentals[days[j].rentalId].suitId == rental.suitId {
          NewRowFree(rentals, days, rental.suitId, base, rid, dates, i, j);
        }
      } else if j in added {
        assert days'[i] == days[i] && rentals'[days[i].rentalId] == rentals[days[i].rentalId];
        if rentals[days[i].rentalId].suitId == rental.suitId {
          NewRowFree(rentals, days, rental.suitId, base, rid, dates, j, i);
        }
      } else {
        assert days'[i] == days[i] && days'[j] == days[j];
        assert rentals'[days[i].rentalId] == rentals[days[i].rentalId];
        assert rentals'[days[j].rentalId] == rentals[days[j].rentalId];
      }
    }
  }

  /** `|set of a duplicate-free sequence| == its length`. */
  lemma {:induction false} DistinctCount(s: seq<Day>)
    requires NoDup(s)
    ensures |set k | 0 <= k < |s| :: s[k]| == |s|
  {
    if s != [] {
      var init := s[..|s| - 1];
      DistinctCount(init);
      var all := set k | 0 <= k < |s| :: s[k];
      var head := set k | 0 <= k < |init| :: init[k];
      assert all == head + {s[|s| - 1]};
      assert s[|s| - 1] !in head;
    }
  }

  /** The day rows of a stored rental are exactly its requested days, one row
      per date, so its price is the number of its days times the daily rate. */
  lemma StoredPriceMatchesDays(
    days: map<RentalDayId, RentalDay>, base: nat, rid: RentalId,
    suit: Suit, actor: Actor, req: StoreRequest, today: Day)
    requires forall i :: i in days ==> i < base && days[i].rentalId != rid
    requires NoDup(RequestedDays(req.dates))
    ensures DaysOf(days + Keyed(base, Rows(rid, req.dates)), rid) == set k | 0 <= k < |req.dates| :: Normalize(req.dates[k])
    ensures NewRental(suit, actor, req, today).totalPrice
            == |DaysOf(days + Keyed(base, Rows(rid, req.dates)), rid)| * suit.pricePerDay
  {
    var days' := days + Keyed(base, Rows(rid, req.dates));
    var want := set k | 0 <= k < |req.dates| :: Normalize(req.dates[k]);
    forall d | d in DaysOf(days', rid) ensures d in want {
      var i :| i in days' && days'[i].rentalId == rid && days'[i].day == d;
      assert i !in days;
      assert d == Normalize(req.dates[i - base]);
    }
    forall d | d in want ensures d in DaysOf(days', rid) {
      var k :| 0 <= k < |req.dates| && d == Normalize(req.dates[k]);
      assert days'[base + k] == RentalDay(rid, d);
    }
    var ds := RequestedDays(req.dates);
    DistinctCount(ds);
    assert want == set k | 0 <= k < |ds| :: ds[k];
  }

  /** `show`: the client, the admin who created the rental, or the suit's owner may see it. */
  function Show(db: Database, actor: Actor, rentalId: RentalId): (r: Result<Rental>)
    reads db
    requires db.Valid()
    ensures rentalId !in db.rentals ==> r == Err(NotFound)
    ensures rentalId in db.rentals ==>
              var rental := db.rentals[rentalId];
              if rental.userId == actor.id || rental.adminId == actor.id || db.suits[rental.suitId].adminId == actor.id
              then r == Ok(rental) else r == Err(Forbidden)
  {
    if rentalId !in db.rentals then Err(NotFound)
    else
      var rental := db.rentals[rentalId];
      if rental.userId != actor.id && rental.adminId != actor.id && db.suits[rental.suitId].adminId != actor.id
      then Err(Forbidden)
      else Ok(rental)
  }

  /** The admin who created the rental or the owner of its suit. */
  predicate CanManage(suits: map<SuitId, Suit>, rental: Rental, actor: Actor)
    requires rental.suitId in suits
  {
    rental.adminId == actor.id || suits[rental.suitId].adminId == actor.id
  }

  /** The rental after `$rental->update($validated)`: only the fields present change. */
  function ApplyUpdate(rental: Rental, upd: RentalUpdate): (r: Rental)
    ensures r.suitId == rental.suitId && r.userId == rental.userId && r.adminId == rental.adminId
    ensures r.startDate == rental.startDate && r.totalPrice == rental.totalPrice
    ensures upd == RentalUpdate(None, None, None) ==> r == rental
  {
    rental.(
      status := if upd.status.Some? then upd.status.value else rental.status,
      notes := if upd.notes.Some? then upd.notes.value else rental.notes,
      paymentStatus := if upd.paymentStatus.Some? then upd.paymentStatus.value else rental.paymentStatus)
  }

  /** `update`: changes status, notes and payment status; any status may follow
      any other. Cancelling frees the suit when no other rental of it is active. */
  method Update(db: Database, actor: Actor, rentalId: RentalId, req: UpdateRequest) returns (r: Result<Rental>)
    requires db.Valid()
    modifies db
    ensures db.Valid()
    ensures db.users == old(db.users) && db.days == old(db.days) && db.images == old(db.images)
    ensures db.nextRentalId == old(db.nextRentalId) && db.nextDayId == old(db.nextDayId) && db.nextImageId == old(db.nextImageId)
    ensures rentalId !in old(db.rentals) ==> r == Err(NotFound)
    ensures rentalId in old(db.rentals) && !CanManage(old(db.suits), old(db.rentals)[rentalId], actor) ==> r == Err(Forbidden)
    ensures (rentalId in old(db.rentals) && CanManage(old(db.suits), old(db.rentals)[rentalId], actor)
             && ParseUpdate(req).None?) ==> r == Err(ValidationFailed)
    ensures r.Err? ==> db.rentals == old(db.rentals) && db.suits == old(db.suits)
    ensures (rentalId in old(db.rentals) && CanManage(old(db.suits), old(db.rentals)[rentalId], actor)
             && ParseUpdate(req).Some?) ==>
              var rental := old(db.rentals)[rentalId];
              var upd := ParseUpdate(req).value;
              && r == Ok(ApplyUpdate(rental, upd))
              && db.rentals == old(db.rentals)[rentalId := ApplyUpdate(rental, upd)]
              && db.suits == if upd.status == Some(Cancelled) && !HasOtherRental(old(db.rentals), rental.suitId, rentalId, {"active"})
                             then old(db.suits)[rental.suitId := old(db.suits)[rental.suitId].(status := Available)]
                             else old(db.suits)
    ensures NoDoubleBooking(old(db.rentals), old(db.days)) && (rentalId in old(db.rentals) ==>
              req.status != Some("active") || old(db.rentals)[rentalId].status == Active)
            ==> NoDoubleBooking(db.rentals, db.days)
  {
    if rentalId !in db.rentals {
      return Err(NotFound);
    }
    var rental := db.rentals[rentalId];
    if !CanManage(db.suits, rental, actor) {
      return Err(Forbidden);
    }
    var parsed := ParseUpdate(req);
    if parsed.None? {
      return Err(ValidationFailed);
    }
    var upd := parsed.value;
    if upd.status == Some(Cancelled) {
      var hasOtherRentals := HasOtherRental(db.rentals, rental.suitId, rentalId, {"active"});
      if !hasOtherRentals {
        db.suits := db.suits[rental.suitId := db.suits[rental.suitId].(status := Available)];
      }
    }
    var updated := ApplyUpdate(rental, upd);
    if NoDoubleBooking(db.rentals, db.days) && (upd.status != Some(Active) || rental.status == Active) {
      StatusChangeKeepsNoDoubleBooking(db.rentals, db.days, rentalId, updated);
    }
    db.rentals := db.rentals[rentalId := updated];
    r := Ok(updated);
  }

  /** Changing a rental without making it newly active cannot double-book a day. */
  lemma StatusChangeKeepsNoDoubleBooking(
    rentals: map<RentalId, Rental>, days: map<RentalDayId, RentalDay>, rid: RentalId, updated: Rental)
    requires NoDoubleBooking(rentals, days)
    requires rid in rentals && updated.suitId == rentals[rid].suitId
    requires updated.status != Active || rentals[rid].status == Active
    ensures NoDoubleBooking(rentals[rid := updated], days)
  {
    var rentals' := rentals[rid := updated];
    forall i, j |
      i in days && j in days && i != j && days[i].day == days[j].day &&
      days[i].rentalId in rentals' && days[j].rentalId in rentals' &&
      rentals'[days[i].rentalId].status == Active && rentals'[days[j].rentalId].status == Active
      ensures rentals'[days[i].rentalId].suitId != rentals'[days[j].rentalId].suitId
    {
      assert rentals[days[i].rentalId].status == Active && rentals[days[j].rentalId].status == Active;
    }
  }

  /** Once an active rental is completed or cancelled, none of its days blocks
      a new booking of the suit any more. */
  lemma CancelFreesDays(
    rentals: map<RentalId, Rental>, days: map<RentalDayId, RentalDay>, rid: RentalId, updated: Rental)
    requires NoDoubleBooking(rentals, days)
    requires rid in rentals && rentals[rid].status == Active
    requires updated.suitId == rentals[rid].suitId && updated.status != Active
    ensures forall d :: d in DaysOf(days, rid) ==> d !in ActiveDays(rentals[rid := updated], days, updated.suitId)
  {
    var rentals' := rentals[rid := updated];
    forall d | d in DaysOf(days, rid) ensures d !in ActiveDays(rentals', days, updated.suitId) {
      var i :| i in days && days[i].rentalId == rid && days[i].day == d;
    }
  }

  /** `update` does not re-check conflicts when it makes a cancelled rental
      active again: two active rentals of one suit can then hold the same day. */
  lemma ReactivationCanDoubleBook(cancelled: Rental)
    requires cancelled.status == Cancelled
    ensures var rentals := map[0 := cancelled.(status := Active), 1 := cancelled];
            var days := map[0 := RentalDay(0, 7), 1 := RentalDay(1, 7)];
            && NoDoubleBooking(rentals, days)
            && !NoDoubleBooking(rentals[1 := ApplyUpdate(cancelled, RentalUpdate(Some(Active), None, None))], days)
  {
    var rentals := map[0 := cancelled.(status := Active), 1 := cancelled];
    var days := map[0 := RentalDay(0, 7), 1 := RentalDay(1, 7)];
    var rentals' := rentals[1 := ApplyUpdate(cancelled, RentalUpdate(Some(Active), None, None))];
    assert days[0].day == days[1].day && rentals'[0].suitId == rentals'[1].suitId;
  }

  /** No rental status is called "pending" or "confirmed", so `destroy`'s look-up never finds another rental. */
  lemma LegacyStatusesMatchNothing(rentals: map<RentalId, Rental>, suitId: SuitId, exceptId: RentalId)
    ensures !HasOtherRental(rentals, suitId, exceptId, LegacyBlockingStatuses)
  {
    forall id | id in rentals ensures rentals[id].status.Name() !in LegacyBlockingStatuses {
      match rentals[id].status
      case Active =>
      case Completed =>
      case Cancelled =>
    }
  }

  /** `destroy`: the creating admin or the suit owner deletes an active rental
      and its days; the suit is then always marked available. */
  method Destroy(db: Database, actor: Actor, rentalId: RentalId) returns (r: Result<RentalId>)
    requires db.Valid()
    modifies db
    ensures db.Valid()
    ensures db.users == old(db.users) && db.images == old(db.images)
    ensures db.nextRentalId == old(db.nextRentalId) && db.nextDayId == old(db.nextDayId) && db.nextImageId == old(db.nextImageId)
    ensures rentalId !in old(db.rentals) ==> r == Err(NotFound)
    ensures rentalId in old(db.rentals) && !CanManage(old(db.suits), old(db.rentals)[rentalId], actor) ==> r == Err(Forbidden)
    ensures (rentalId in old(db.rentals) && CanManage(old(db.suits), old(db.rentals)[rentalId], actor)
             && old(db.rentals)[rentalId].status != Active) ==> r == Err(InvalidState)
    ensures r.Err? ==> db.rentals == old(db.rentals) && db.days == old(db.days) && db.suits == old(db.suits)
    ensures rentalId in old(db.rentals) && CanManage(old(db.suits), old(db.rentals)[rentalId], actor)
            && old(db.rentals)[rentalId].status == Active ==>
              var suitId := old(db.rentals)[rentalId].suitId;
              && r == Ok(rentalId)
              && db.rentals == old(db.rentals) - {rentalId}
              && db.days == (map i | i in old(db.days) && old(db.days)[i].rentalId != rentalId :: old(db.days)[i])
              && db.suits == old(db.suits)[suitId := old(db.suits)[suitId].(status := Available)]
    ensures NoDoubleBooking(old(db.rentals), old(db.days)) ==> NoDoubleBooking(db.rentals, db.days)
  {
    if rentalId !in db.rentals {
      return Err(NotFound);
    }
    var rental := db.rentals[rentalId];
    if !CanManage(db.suits, rental, actor) {
      return Err(Forbidden);
    }
    if rental.status.Name() in {"completed", "cancelled"} {
      return Err(InvalidState);
    }
    var hasOtherRentals := HasOtherRental(db.rentals, rental.suitId, rentalId, LegacyBlockingStatuses);
    LegacyStatusesMatchNothing(db.rentals, rental.suitId, rentalId);
    if !hasOtherRentals {
      db.suits := db.suits[rental.suitId := db.suits[rental.suitId].(status := Available)];
    }
    // Deleting the rental cascades to its day rows.
    db.rentals := db.rentals - {rentalId};
    db.days := map i | i in db.days && db.days[i].rentalId != rentalId :: db.days[i];
    r := Ok(rentalId);
  }
}
