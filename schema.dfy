/** The persisted state of the rental backend: the `users`, `suits`,
    `rentals`, `rental_days` and `suit_images` tables, their enums, and the
    integrity their foreign keys and unique index guarantee. */
module Schema {
  import opened Common

  type UserId = nat
  type SuitId = nat
  type RentalId = nat
  type RentalDayId = nat
  type ImageId = nat

  /** Money in integer cents (the columns are `decimal(8, 2)`). */
  type Cents = int

  /** `users.role`: enum("admin", "user"). */
  datatype Role = Admin | Client

  /** The authenticated caller (Laravel's `Auth::user()`), passed explicitly. */
  datatype Actor = Actor(id: UserId, role: Role)

  /** `rentals.status`: enum("active", "completed", "cancelled"). */
  datatype RentalStatus = Active | Completed | Cancelled {
    /** The string stored in the column, which queries compare against. */
    function Name(): string {
      match this
      case Active => "active"
      case Completed => "completed"
      case Cancelled => "cancelled"
    }
  }

  /** `rentals.payment_status`: enum("unpaid", "paid", "refunded"). */
  datatype PaymentStatus = Unpaid | Paid | Refunded {
    /** The string stored in the column. */
    function Name(): string {
      match this
      case Unpaid => "unpaid"
      case Paid => "paid"
      case Refunded => "refunded"
    }
  }

  /** The values the `in:active,completed,cancelled` rule admits. */
  const RentalStatusNames: set<string> := {"active", "completed", "cancelled"}

  /** The values the `in:unpaid,paid,refunded` rule admits. */
  const PaymentStatusNames: set<string> := {"unpaid", "paid", "refunded"}

  /** The status a request field names, or None when the `in:` rule rejects it. */
  function ParseRentalStatus(s: string): (r: Option<RentalStatus>)
    ensures r.None? <==> s !in RentalStatusNames
    ensures r.Some? ==> r.value.Name() == s
  {
    if s == "active" then Some(Active)
    else if s == "completed" then Some(Completed)
    else if s == "cancelled" then Some(Cancelled)
    else None
  }

  /** Every status reads back from the name it is stored under. */
  lemma RentalStatusRoundTrip(st: RentalStatus)
    ensures ParseRentalStatus(st.Name()) == Some(st)
  {
    match st
    case Active =>
    case Completed =>
    case Cancelled =>
  }

  /** The payment status a request field names, or None when the `in:` rule rejects it. */
  function ParsePaymentStatus(s: string): (r: Option<PaymentStatus>)
    ensures r.None? <==> s !in PaymentStatusNames
    ensures r.Some? ==> r.value.Name() == s
  {
    if s == "unpaid" then Some(Unpaid)
    else if s == "paid" then Some(Paid)
    else if s == "refunded" then Some(Refunded)
    else None
  }

  /** Every payment status reads back from the name it is stored under. */
  lemma PaymentStatusRoundTrip(ps: PaymentStatus)
    ensures ParsePaymentStatus(ps.Name()) == Some(ps)
  {
    match ps
    case Unpaid =>
    case Paid =>
    case Refunded =>
  }

  /** `suits.status`: enum("available", "unavailable", "rented"). */
  datatype SuitStatus = Available | Unavailable | Rented

  /** A suit row, reduced to what the rental and image logic reads or writes. */
  datatype Suit = Suit(adminId: UserId, pricePerDay: Cents, status: SuitStatus, isActive: bool)

  /** A rental row. `startDate` holds what the column receives: its default, the current date. */
  datatype Rental = Rental(
    suitId: SuitId,
    userId: UserId,
    adminId: UserId,
    startDate: Day,
    totalPrice: Cents,
    status: RentalStatus,
    notes: Option<string>,
    paymentStatus: PaymentStatus)

  /** A `rental_days` row: one whole calendar day claimed by one rental. */
  datatype RentalDay = RentalDay(rentalId: RentalId, day: Day)

  /** A `suit_images` row. */
  datatype SuitImage = SuitImage(suitId: SuitId, imagePath: string, sortOrder: int)

  /** A date as a request carries it: a day and possibly a time of day. */
  datatype DateInput = DateInput(day: Day, secondOfDay: nat)

  /** `Carbon::parse($date)->format('Y-m-d')`: drops the time of day. */
  function Normalize(d: DateInput): Day {
    d.day
  }

  /** The failures the controllers answer with. */
  datatype Error =
    | Forbidden                          // 403
    | NotFound                           // 404 (route model binding or an explicit check)
    | ValidationFailed                   // 422 from `$request->validate`
    | DateConflicts(dates: seq<DateInput>) // 422 with the conflicting dates
    | InvalidState                       // 422: completed or cancelled rental
    | HasActiveRentals                   // 422: suit still rented
    | QueryFailed                        // 500: a statement failed and the transaction rolled back
  {
    function HttpStatus(): int {
      match this
      case Forbidden => 403
      case NotFound => 404
      case QueryFailed => 500
      case _ => 422
    }
  }

  datatype Result<+T> = Ok(value: T) | Err(error: Error)

  /** `rid` is a rental of suit `suitId` whose status is `active`. */
  predicate IsActiveRentalOf(rentals: map<RentalId, Rental>, rid: RentalId, suitId: SuitId) {
    rid in rentals && rentals[rid].suitId == suitId && rentals[rid].status == Active
  }

  /** Every day held by an active rental of the suit. */
  function ActiveDays(rentals: map<RentalId, Rental>, days: map<RentalDayId, RentalDay>, suitId: SuitId): set<Day> {
    set id | id in days && IsActiveRentalOf(rentals, days[id].rentalId, suitId) :: days[id].day
  }

  /** The days claimed by one rental. */
  function DaysOf(days: map<RentalDayId, RentalDay>, rid: RentalId): set<Day> {
    set id | id in days && days[id].rentalId == rid :: days[id].day
  }

  /** Some rental of the suit other than `exceptId` has a status whose name is in `names`
      (`Rental::where('suit_id', ..)->where('id', '!=', ..)->whereIn('status', names)->exists()`). */
  predicate HasOtherRental(rentals: map<RentalId, Rental>, suitId: SuitId, exceptId: RentalId, names: set<string>) {
    exists id :: id in rentals && id != exceptId && rentals[id].suitId == suitId && rentals[id].status.Name() in names
  }

  /** No two active rentals of the same suit claim the same day. */
  ghost predicate NoDoubleBooking(rentals: map<RentalId, Rental>, days: map<RentalDayId, RentalDay>) {
    forall i, j ::
      i in days && j in days && i != j && days[i].day == days[j].day &&
      days[i].rentalId in rentals && days[j].rentalId in rentals &&
      rentals[days[i].rentalId].status == Active && rentals[days[j].rentalId].status == Active
      ==> rentals[days[i].rentalId].suitId != rentals[days[j].rentalId].suitId
  }

  /** Every rental names an existing suit, and its id was drawn from the counter. */
  ghost predicate RentalsValid(suits: map<SuitId, Suit>, rentals: map<RentalId, Rental>, nextRentalId: nat) {
    forall id :: id in rentals ==> rentals[id].suitId in suits && id < nextRentalId
  }

  /** Every day row names an existing rental, no two rows are equal (the unique
      `(rental_id, day)` index), and every id was drawn from the counter. */
  ghost predicate DaysValid(rentals: map<RentalId, Rental>, days: map<RentalDayId, RentalDay>, nextDayId: nat) {
    && (forall id :: id in days ==> days[id].rentalId in rentals && id < nextDayId)
    && (forall i, j :: i in days && j in days && i != j ==> days[i] != days[j])
  }

  /** Every image names an existing suit, and its id was drawn from the counter. */
  ghost predicate ImagesValid(suits: map<SuitId, Suit>, images: map<ImageId, SuitImage>, nextImageId: nat) {
    forall id :: id in images ==> images[id].suitId in suits && id < nextImageId
  }

  /** The database. Row ids come from per-table auto-increment counters. */
  class Database {
    var users: set<UserId>
    var suits: map<SuitId, Suit>
    var rentals: map<RentalId, Rental>
    var days: map<RentalDayId, RentalDay>
    var images: map<ImageId, SuitImage>
    var nextRentalId: nat
    var nextDayId: nat
    var nextImageId: nat

    /** Foreign keys hold, `(rental_id, day)` is unique, and every id was drawn from its counter. */
    ghost predicate Valid()
      reads this
    {
      && RentalsValid(suits, rentals, nextRentalId)
      && DaysValid(rentals, days, nextDayId)
      && ImagesValid(suits, images, nextImageId)
    }

    constructor ()
      ensures Valid()
      ensures users == {} && suits == map[] && rentals == map[] && days == map[] && images == map[]
    {
      users, suits, rentals, days, images := {}, map[], map[], map[], map[];
      nextRentalId, nextDayId, nextImageId := 0, 0, 0;
    }
  }
}
