/** The card service: issuing, looking up, blocking, activating and
    deleting cards, users' block requests, and transfers between a user's
    own cards. The card repository is the map `cards`, the block-request
    repository the sequence `blockRequests`; each method is one atomic
    service call, and each exception it may throw is an `Error`. */
module Cards {
  import opened Model
  import opened CardMapper
  import opened CardSpecification
  import CardStore

  /** A transfer request: move `amount` (minor units) between two cards. */
  datatype TransferRequest = TransferRequest(fromCardId: Uuid, toCardId: Uuid, amount: int)

  class CardService {
    var cards: map<Uuid, Card>
    var blockRequests: seq<BlockRequest>

    /** Cards are stored under their own ids, and no card has two active
        block requests. */
    ghost predicate Valid()
      reads this
    {
      CardStore.KeysMatch(cards) && CardStore.AtMostOneActivePerCard(blockRequests)
    }

    constructor ()
      ensures Valid() && cards == map[] && blockRequests == []
    {
      cards := map[];
      blockRequests := [];
    }

    /** The unscoped lookup. */
    method GetCardByIdRaw(id: Uuid) returns (r: Result<Card>)
      ensures id in cards ==> r == Ok(cards[id])
      ensures id !in cards ==> r == Err(CardNotFound(id))
    {
      if id in cards {
        r := Ok(cards[id]);
      } else {
        r := Err(CardNotFound(id));
      }
    }

    /** The lookup scoped to an owner: a card of another user is reported
        exactly like a missing one. */
    method GetCardByIdAndUserId(cardId: Uuid, userId: Uuid) returns (r: Result<Card>)
      ensures r.Ok? <==> cardId in cards && cards[cardId].owner == userId
      ensures r.Ok? ==> r.value == cards[cardId]
      ensures r.Err? ==> r.error == CardNotFound(cardId)
    {
      var found := CardStore.FindByIdAndUserId(cards, cardId, userId);
      if found.Some? {
        r := Ok(found.value);
      } else {
        r := Err(CardNotFound(cardId));
      }
    }

    /** Issues a new card to an existing user. `users` is the user
        repository, `newId` the random UUID and `today` the current date. */
    method CreateCard(request: CardRequest, users: map<Uuid, User>, newId: Uuid, today: Date)
      returns (r: Result<CardResponse>)
      requires Valid() && ValidDate(today) && newId !in cards
      modifies this
      ensures Valid() && blockRequests == old(blockRequests)
      ensures request.userId !in users ==> r == Err(UserNotFound(request.userId)) && cards == old(cards)
      ensures request.userId in users ==>
        && cards == old(cards)[newId := ToCard(request, users[request.userId], newId, today)]
        && cards[newId].status == Active && cards[newId].balance == 0
        && r == Ok(ToCardResponse(cards[newId]))
    {
      if request.userId !in users {
        return Err(UserNotFound(request.userId));
      }
      var user := users[request.userId];
      var card := ToCard(request, user, newId, today);
      cards := cards[newId := card];
      r := Ok(ToCardResponse(card));
    }

    method GetCardById(id: Uuid) returns (r: Result<CardResponse>)
      requires Valid()
      ensures id in cards ==> r == Ok(ToCardResponse(cards[id])) && r.value.id == id
      ensures id !in cards ==> r == Err(CardNotFound(id))
    {
      var found := GetCardByIdRaw(id);
      if found.Err? {
        return Err(found.error);
      }
      r := Ok(ToCardResponse(found.value));
    }

    /** All cards the filter accepts, by id (pagination is not modelled). */
    method GetAllCards(filter: CardFilter) returns (r: map<Uuid, CardResponse>)
      ensures forall id :: id in r <==> id in cards && WithFilter(filter, cards[id])
      ensures forall id :: id in r ==> r[id] == ToCardResponse(cards[id])
    {
      r := map id | id in cards && WithFilter(filter, cards[id]) :: ToCardResponse(cards[id]);
    }

    /** The caller's cards that the rest of the filter accepts: the user
        criterion is overwritten with the caller, so no other user's card
        is ever returned. */
    method GetAllMyCards(currentUserId: Uuid, filter: CardFilter) returns (r: map<Uuid, CardResponse>)
      ensures forall id :: id in r ==> id in cards && cards[id].owner == currentUserId
      ensures forall id :: id in r <==>
        id in cards && cards[id].owner == currentUserId && WithFilter(filter.(userId := None), cards[id])
      ensures forall id :: id in r ==> r[id] == ToCardResponse(cards[id])
    {
      var scoped := filter.(userId := Some(currentUserId));
      r := map id | id in cards && WithFilter(scoped, cards[id]) :: ToCardResponse(cards[id]);
      forall id | id in cards
        ensures WithFilter(scoped, cards[id]) <==>
          cards[id].owner == currentUserId && WithFilter(filter.(userId := None), cards[id])
      {
        UserCriterionNarrows(filter, currentUserId, cards[id]);
      }
    }

    /** The status transition behind block and activate. Setting the
        status a card already has is an error, not a no-op; otherwise only
        that card's status changes. */
    method UpdateCardStatus(cardId: Uuid, status: CardStatus) returns (r: Result<CardResponse>)
      requires Valid()
      modifies this
      ensures Valid() && blockRequests == old(blockRequests)
      ensures cardId !in old(cards) ==> r == Err(CardNotFound(cardId)) && cards == old(cards)
      ensures cardId in old(cards) && old(cards)[cardId].status == status ==>
        r == Err(StatusAlreadySet(old(cards)[cardId].number, status)) && cards == old(cards)
      ensures cardId in old(cards) && old(cards)[cardId].status != status ==>
        && cards == old(cards)[cardId := old(cards)[cardId].(status := status)]
        && r == Ok(ToCardResponse(cards[cardId]))
    {
      var found := GetCardByIdRaw(cardId);
      if found.Err? {
        return Err(found.error);
      }
      var card := found.value;
      var cardNumber := card.number;
      if card.status == status {
        return Err(StatusAlreadySet(cardNumber, status));
      }
      card := card.(status := status);
      cards := cards[cardId := card];
      r := Ok(ToCardResponse(card));
    }

    method BlockCard(cardId: Uuid) returns (r: Result<CardResponse>)
      requires Valid()
      modifies this
      ensures Valid() && blockRequests == old(blockRequests)
      ensures cardId !in old(cards) ==> r == Err(CardNotFound(cardId)) && cards == old(cards)
      ensures cardId in old(cards) && old(cards)[cardId].status == Blocked ==>
        r == Err(StatusAlreadySet(old(cards)[cardId].number, Blocked)) && cards == old(cards)
      ensures cardId in old(cards) && old(cards)[cardId].status == Active ==>
        && cards == old(cards)[cardId := old(cards)[cardId].(status := Blocked)]
        && r.Ok? && r.value.status == Blocked && r.value == ToCardResponse(cards[cardId])
    {
      r := UpdateCardStatus(cardId, Blocked);
    }

    method ActivateCard(cardId: Uuid) returns (r: Result<CardResponse>)
      requires Valid()
      modifies this
      ensures Valid() && blockRequests == old(blockRequests)
      ensures cardId !in old(cards) ==> r == Err(CardNotFound(cardId)) && cards == old(cards)
      ensures cardId in old(cards) && old(cards)[cardId].status == Active ==>
        r == Err(StatusAlreadySet(old(cards)[cardId].number, Active)) && cards == old(cards)
      ensures cardId in old(cards) && old(cards)[cardId].status == Blocked ==>
        && cards == old(cards)[cardId := old(cards)[cardId].(status := Active)]
        && r.Ok? && r.value.status == Active && r.value == ToCardResponse(cards[cardId])
    {
      r := UpdateCardStatus(cardId, Active);
    }

    /** Removes a card; a missing id is an error and removes nothing. */
    method DeleteCard(id: Uuid) returns (r: Outcome)
      requires Valid()
      modifies this
      ensures Valid() && blockRequests == old(blockRequests)
      ensures id !in old(cards) ==> r == Fail(CardNotFound(id)) && cards == old(cards)
      ensures id in old(cards) ==> r == Pass && cards == old(cards) - {id}
    {
      if id !in cards {
        return Fail(CardNotFound(id));
      }
      cards := cards - {id};
      r := Pass;
    }

    /** A user asks for one of their cards to be blocked. The card's
        status is not touched; an active request is appended to the ledger
        unless one already exists for the card. */
    method RequestCardBlock(cardId: Uuid, currentUserId: Uuid, now: Instant) returns (r: Outcome)
      requires Valid()
      modifies this
      ensures Valid() && cards == old(cards)
      ensures cardId !in cards || cards[cardId].owner != currentUserId ==>
        r == Fail(CardNotFound(cardId)) && blockRequests == old(blockRequests)
      ensures cardId in cards && cards[cardId].owner == currentUserId
              && CardStore.HasActiveRequest(old(blockRequests), cardId) ==>
        r == Fail(DuplicateBlockRequest) && blockRequests == old(blockRequests)
      ensures cardId in cards && cards[cardId].owner == currentUserId
              && !CardStore.HasActiveRequest(old(blockRequests), cardId) ==>
        && r == Pass
        && blockRequests == old(blockRequests) + [BlockRequest(cardId, currentUserId, now, RequestActive)]
        && CardStore.ActiveCount(blockRequests, cardId) == 1
    {
      var found := GetCardByIdRaw(cardId);
      if found.Err? {
        return Fail(found.error);
      }
      var card := found.value;
      if card.owner != currentUserId {
        return Fail(CardNotFound(cardId));
      }
      var requestExists := CardStore.HasActiveRequest(blockRequests, cardId);
      if requestExists {
        return Fail(DuplicateBlockRequest);
      }
      var request := BlockRequest(cardId, card.owner, now, RequestActive);
      CardStore.AppendActiveRequest(blockRequests, request);
      blockRequests := blockRequests + [request];
      r := Pass;
    }

    /** Moves money between two cards of the caller. Both lookups are
        scoped to the caller; both cards must be active and the source must
        hold at least the amount. The amount itself is not checked. */
    method TransferBetweenMyCards(request: TransferRequest, currentUserId: Uuid) returns (r: Outcome)
      requires Valid()
      modifies this
      ensures Valid() && blockRequests == old(blockRequests)
      ensures CardStore.FindByIdAndUserId(old(cards), request.fromCardId, currentUserId).None? ==>
        r == Fail(CardNotFound(request.fromCardId)) && cards == old(cards)
      ensures CardStore.FindByIdAndUserId(old(cards), request.fromCardId, currentUserId).Some?
              && CardStore.FindByIdAndUserId(old(cards), request.toCardId, currentUserId).None? ==>
        r == Fail(CardNotFound(request.toCardId)) && cards == old(cards)
      ensures r.Pass? || r.error.CardNotFound? || cards == old(cards)
      ensures r.Pass? <==>
        && CardStore.FindByIdAndUserId(old(cards), request.fromCardId, currentUserId).Some?
        && CardStore.FindByIdAndUserId(old(cards), request.toCardId, currentUserId).Some?
        && old(cards)[request.fromCardId].status == Active
        && old(cards)[request.toCardId].status == Active
        && old(cards)[request.fromCardId].balance >= request.amount
      ensures r == Fail(CardIsNotActive) <==>
        && CardStore.FindByIdAndUserId(old(cards), request.fromCardId, currentUserId).Some?
        && CardStore.FindByIdAndUserId(old(cards), request.toCardId, currentUserId).Some?
        && (old(cards)[request.fromCardId].status != Active || old(cards)[request.toCardId].status != Active)
      ensures r == Fail(InsufficientFunds) <==>
        && CardStore.FindByIdAndUserId(old(cards), request.fromCardId, currentUserId).Some?
        && CardStore.FindByIdAndUserId(old(cards), request.toCardId, currentUserId).Some?
        && old(cards)[request.fromCardId].status == Active
        && old(cards)[request.toCardId].status == Active
        && old(cards)[request.fromCardId].balance < request.amount
      ensures r.Pass? ==>
        cards == CardStore.Transferred(old(cards), request.fromCardId, request.toCardId, request.amount)
      ensures CardStore.TotalBalance(cards) == CardStore.TotalBalance(old(cards))
      ensures CardStore.AllNonNegative(old(cards)) && request.amount >= 0 ==> CardStore.AllNonNegative(cards)
    {
      var fromFound := GetCardByIdAndUserId(request.fromCardId, currentUserId);
      if fromFound.Err? {
        return Fail(fromFound.error);
      }
      var toFound := GetCardByIdAndUserId(request.toCardId, currentUserId);
      if toFound.Err? {
        return Fail(toFound.error);
      }
      var fromCard, toCard := fromFound.value, toFound.value;

      if fromCard.status != Active || toCard.status != Active {
        return Fail(CardIsNotActive);
      }
      if fromCard.balance < request.amount {
        return Fail(InsufficientFunds);
      }

      ghost var before := cards;
      cards := cards[request.fromCardId := fromCard.(balance := fromCard.balance - request.amount)];
      // Both lookups yield the same entity when the ids coincide, so the
      // credit applies to the balance as the debit left it.
      var toNow := cards[request.toCardId];
      cards := cards[request.toCardId := toNow.(balance := toNow.balance + request.amount)];
      r := Pass;

      assert cards == CardStore.Transferred(before, request.fromCardId, request.toCardId, request.amount);
      CardStore.TransferConservesTotal(before, request.fromCardId, request.toCardId, request.amount);
      if CardStore.AllNonNegative(before) && request.amount >= 0 {
        CardStore.TransferKeepsNonNegative(before, request.fromCardId, request.toCardId, request.amount);
      }
    }

    /** The balance of one of the caller's cards. */
    method GetMyCardBalance(cardId: Uuid, currentUserId: Uuid) returns (r: Result<int>)
      ensures r.Ok? <==> cardId in cards && cards[cardId].owner == currentUserId
      ensures r.Ok? ==> r.value == cards[cardId].balance
      ensures r.Err? ==> r.error == CardNotFound(cardId)
    {
      var found := GetCardByIdAndUserId(cardId, currentUserId);
      if found.Err? {
        return Err(found.error);
      }
      r := Ok(found.value.balance);
    }
  }
}
