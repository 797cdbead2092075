/** Building a new card from an administrator's request, and projecting a
    stored card to the response the API returns. */
module CardMapper {
  import opened Model
  import CardMask

  /** How long a newly issued card is valid, in years. */
  const ValidityYears: int := 3

  /** What an administrator supplies to issue a card. */
  datatype CardRequest = CardRequest(cardNumber: string, userId: Uuid)

  /** A card as the API shows it: the number is masked. */
  datatype CardResponse = CardResponse(
    id: Uuid,
    number: string,
    expirationDate: Date,
    status: CardStatus,
    balance: int)

  /** The card `toCard` builds. `id` stands for the random UUID and `today`
      for the current date, both supplied by the environment. */
  function ToCard(request: CardRequest, user: User, id: Uuid, today: Date): (c: Card)
    requires ValidDate(today)
    ensures c.id == id && c.owner == user.id && c.number == request.cardNumber
    ensures c.status == Active && c.balance == 0
    ensures ValidDate(c.expirationDate) && DateLe(today, c.expirationDate)
    ensures c.expirationDate == PlusYears(today, ValidityYears)
    ensures c.expirationDate.year == today.year + ValidityYears && c.expirationDate.month == today.month
  {
    Card(id, request.cardNumber, user.id, PlusYears(today, ValidityYears), Active, 0)
  }

  /** The response for a card: every field but the number is carried over
      exactly; the number is masked, showing at most its last four
      characters. */
  function ToCardResponse(card: Card): (r: CardResponse)
    ensures r.number == CardMask.MaskCardNumber(Some(card.number))
    ensures r.id == card.id && r.expirationDate == card.expirationDate
    ensures r.status == card.status && r.balance == card.balance
    ensures |card.number| < 4 ==> r.number == CardMask.ShortMask
    ensures |card.number| >= 4 ==>
      |r.number| == 19 && r.number[..15] == CardMask.MaskPrefix
      && r.number[15..] == CardMask.LastFour(card.number)
  {
    CardResponse(card.id, CardMask.MaskCardNumber(Some(card.number)), card.expirationDate,
                 card.status, card.balance)
  }

  /** Two cards that differ only in the digits before the last four give
      the same response, so the response reveals no more of the number. */
  lemma ResponseHidesNumber(c: Card, d: Card)
    requires |c.number| >= 4 && |d.number| >= 4
    requires c.(number := d.number) == d
    ensures ToCardResponse(c) == ToCardResponse(d) <==> CardMask.LastFour(c.number) == CardMask.LastFour(d.number)
  {
    CardMask.MaskDependsOnlyOnLastFour(c.number, d.number);
  }
}
