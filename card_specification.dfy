/** The card search filter: a conjunction of optional criteria, each of
    which is ignored when its value is null. */
module CardSpecification {
  import opened Model

  /** The search criteria; `None` is a null criterion. The page size and
      number are not part of the predicate. */
  datatype CardFilter = CardFilter(
    id: Option<Uuid>,
    encryptedNumber: Option<string>,
    userId: Option<Uuid>,
    expirationDateFrom: Option<Date>,
    expirationDateTo: Option<Date>,
    status: Option<CardStatus>,
    balanceFrom: Option<int>,
    balanceTo: Option<int>)

  /** The filter with every criterion null. */
  const NoFilter: CardFilter := CardFilter(None, None, None, None, None, None, None, None)

  /** An equality criterion: a null value places no constraint. */
  predicate ByEquality<T(==)>(wanted: Option<T>, actual: T) {
    wanted.None? || actual == wanted.value
  }

  predicate ById(id: Option<Uuid>, card: Card) {
    ByEquality(id, card.id)
  }

  predicate ByEncryptedNumber(encryptedNumber: Option<string>, card: Card) {
    ByEquality(encryptedNumber, card.number)
  }

  /** The user criterion is matched against the id of the card's owner. */
  predicate ByUserId(userId: Option<Uuid>, card: Card) {
    ByEquality(userId, card.owner)
  }

  predicate ByStatus(status: Option<CardStatus>, card: Card) {
    ByEquality(status, card.status)
  }

  /** A range criterion with optional bounds under the order `le`: both
      bounds null is no constraint, both set is an inclusive between, one
      set is a one-sided inclusive bound. Taken together, the criterion is
      the conjunction of its two optional bounds. */
  predicate ByRange<T>(le: (T, T) -> bool, from: Option<T>, to: Option<T>, x: T): (r: bool)
    ensures r <==> (from.Some? ==> le(from.value, x)) && (to.Some? ==> le(x, to.value))
  {
    if from.None? && to.None? then true
    else if from.Some? && to.Some? then le(from.value, x) && le(x, to.value)
    else if from.Some? then le(from.value, x)
    else le(x, to.value)
  }

  function BalanceLe(a: int, b: int): bool { a <= b }

  /** The conjunction of all six criteria, in the order the filter adds
      them. A card matches exactly when every criterion that is set agrees
      with the corresponding field of the card. */
  predicate WithFilter(filter: CardFilter, card: Card): (r: bool)
    ensures r <==>
      && (filter.id.Some? ==> card.id == filter.id.value)
      && (filter.encryptedNumber.Some? ==> card.number == filter.encryptedNumber.value)
      && (filter.userId.Some? ==> card.owner == filter.userId.value)
      && (filter.status.Some? ==> card.status == filter.status.value)
      && (filter.expirationDateFrom.Some? ==> DateLe(filter.expirationDateFrom.value, card.expirationDate))
      && (filter.expirationDateTo.Some? ==> DateLe(card.expirationDate, filter.expirationDateTo.value))
      && (filter.balanceFrom.Some? ==> filter.balanceFrom.value <= card.balance)
      && (filter.balanceTo.Some? ==> card.balance <= filter.balanceTo.value)
  {
    && ById(filter.id, card)
    && ByEncryptedNumber(filter.encryptedNumber, card)
    && ByUserId(filter.userId, card)
    && ByRange(DateLe, filter.expirationDateFrom, filter.expirationDateTo, card.expirationDate)
    && ByStatus(filter.status, card)
    && ByRange(BalanceLe, filter.balanceFrom, filter.balanceTo, card.balance)
  }

  /** The all-null filter accepts every card. */
  lemma NoFilterAcceptsAll(card: Card)
    ensures WithFilter(NoFilter, card)
  {
  }

  /** Scoping a filter to one user keeps exactly the cards that the rest of
      the filter accepts and that this user owns. */
  lemma UserCriterionNarrows(filter: CardFilter, userId: Uuid, card: Card)
    ensures WithFilter(filter.(userId := Some(userId)), card) <==>
      WithFilter(filter.(userId := None), card) && card.owner == userId
  {
  }
}
