/** Values shared by the card and user services: identifiers, dates, the
    Card, User and CardBlockRequest entities, and the exceptions the
    services throw, as data. */
module Model {

  /** A UUID. Only equality matters to the services. */
  type Uuid = nat

  /** A LocalDateTime timestamp; the services only store it. */
  type Instant = int

  datatype Option<+T> = None | Some(value: T)

  // ---------------------------------------------------------------------
  // Calendar dates (java.time.LocalDate), as far as the cards use them
  // ---------------------------------------------------------------------

  datatype Date = Date(year: int, month: int, day: int)

  /** The proleptic Gregorian leap-year rule. */
  predicate IsLeapYear(y: int) {
    y % 4 == 0 && (y % 100 != 0 || y % 400 == 0)
  }

  function DaysInMonth(year: int, month: int): (n: int)
    requires 1 <= month <= 12
    ensures 28 <= n <= 31
    ensures month == 2 ==> (n == 29 <==> IsLeapYear(year))
  {
    if month == 2 then (if IsLeapYear(year) then 29 else 28)
    else if month == 4 || month == 6 || month == 9 || month == 11 then 30
    else 31
  }

  predicate ValidDate(d: Date) {
    1 <= d.month <= 12 && 1 <= d.day <= DaysInMonth(d.year, d.month)
  }

  /** LocalDate.plusYears: same month and day in the later year, with the
      day clamped to the last valid day of that month (29 February becomes
      28 February in a common year). */
  function PlusYears(d: Date, years: int): (r: Date)
    requires ValidDate(d)
    ensures ValidDate(r)
    ensures r.year == d.year + years && r.month == d.month
    ensures r.day == d.day || (d.month == 2 && d.day == 29 && r.day == 28 && !IsLeapYear(r.year))
  {
    var y := d.year + years;
    Date(y, d.month, if d.day <= DaysInMonth(y, d.month) then d.day else DaysInMonth(y, d.month))
  }

  /** Chronological order of dates (LocalDate.compareTo <= 0). */
  predicate DateLe(a: Date, b: Date) {
    a.year < b.year || (a.year == b.year && (a.month < b.month || (a.month == b.month && a.day <= b.day)))
  }

  // ---------------------------------------------------------------------
  // Entities
  // ---------------------------------------------------------------------

  datatype CardStatus = Active | Blocked

  datatype RequestStatus = RequestActive | RequestCompleted

  datatype UserRole = RoleUser | RoleAdmin

  /** A card. `owner` is the id of the owning user, `number` the stored
      (encrypted) card number, `balance` an exact amount in minor units. */
  datatype Card = Card(
    id: Uuid,
    number: string,
    owner: Uuid,
    expirationDate: Date,
    status: CardStatus,
    balance: int)

  /** A user. Every profile field may be null in the entity. */
  datatype User = User(
    id: Uuid,
    firstName: Option<string>,
    lastName: Option<string>,
    email: Option<string>,
    phoneNumber: Option<string>,
    password: Option<string>,
    role: Option<UserRole>,
    createdAt: Instant)

  /** A user's request to block one of their cards. */
  datatype BlockRequest = BlockRequest(
    card: Uuid,
    user: Uuid,
    requestedAt: Instant,
    status: RequestStatus)

  // ---------------------------------------------------------------------
  // Exceptions, as data
  // ---------------------------------------------------------------------

  datatype Error =
    | CardNotFound(cardId: Uuid)
    | StatusAlreadySet(cardNumber: string, status: CardStatus)
    | CardIsNotActive
    | InsufficientFunds
    | DuplicateBlockRequest
    | UserNotFound(userId: Uuid)
    | EmailAlreadyExists(email: Option<string>)

  /** The outcome of a service call that returns a value or throws. */
  datatype Result<+T> = Ok(value: T) | Err(error: Error)

  /** The outcome of a `void` service call. */
  datatype Outcome = Pass | Fail(error: Error)
}
