/** Concrete runs of the card service, checked against the service's
    contracts alone. Amounts are in minor units (100.00 is 10000). */
module Scenarios {
  import opened Model
  import opened Cards
  import CardStore

  /** 100.00 and 50.00 on two active cards of one owner; moving 30.00
      leaves 70.00 and 80.00. */
  method TransferScenario(svc: CardService, x: Uuid, y: Uuid, owner: Uuid)
    requires svc.Valid() && x != y && x in svc.cards && y in svc.cards
    requires svc.cards[x].owner == owner && svc.cards[y].owner == owner
    requires svc.cards[x].status == Active && svc.cards[y].status == Active
    requires svc.cards[x].balance == 10000 && svc.cards[y].balance == 5000
    modifies svc
    ensures svc.cards.Keys == old(svc.cards.Keys)
    ensures svc.cards[x].balance == 7000 && svc.cards[y].balance == 8000
    ensures forall id :: id in old(svc.cards) && id != x && id != y ==> svc.cards[id] == old(svc.cards)[id]
  {
    var r := svc.TransferBetweenMyCards(TransferRequest(x, y, 3000), owner);
    CardStore.TransferredBalances(old(svc.cards), x, y, 3000);
  }

  /** A transfer to a blocked card fails and moves nothing. */
  method TransferToBlockedScenario(svc: CardService, x: Uuid, y: Uuid, owner: Uuid)
    requires svc.Valid() && x in svc.cards && y in svc.cards
    requires svc.cards[x].owner == owner && svc.cards[y].owner == owner
    requires svc.cards[x].status == Active && svc.cards[y].status == Blocked
    modifies svc
    ensures svc.cards == old(svc.cards)
  {
    var r := svc.TransferBetweenMyCards(TransferRequest(x, y, 1000), owner);
    assert r == Fail(CardIsNotActive);
  }

  /** 10.00 cannot pay 50.00: the transfer fails and moves nothing. */
  method InsufficientFundsScenario(svc: CardService, x: Uuid, y: Uuid, owner: Uuid)
    requires svc.Valid() && x in svc.cards && y in svc.cards
    requires svc.cards[x].owner == owner && svc.cards[y].owner == owner
    requires svc.cards[x].status == Active && svc.cards[y].status == Active
    requires svc.cards[x].balance == 1000 && svc.cards[y].balance == 0
    modifies svc
    ensures svc.cards == old(svc.cards)
  {
    var r := svc.TransferBetweenMyCards(TransferRequest(x, y, 5000), owner);
    assert r == Fail(InsufficientFunds);
  }

  /** Paying out exactly the whole balance is allowed and leaves zero. */
  method ExactBalanceScenario(svc: CardService, x: Uuid, y: Uuid, owner: Uuid)
    requires svc.Valid() && x != y && x in svc.cards && y in svc.cards
    requires svc.cards[x].owner == owner && svc.cards[y].owner == owner
    requires svc.cards[x].status == Active && svc.cards[y].status == Active
    requires svc.cards[x].balance == 2500
    modifies svc
    ensures svc.cards.Keys == old(svc.cards.Keys)
    ensures svc.cards[x].balance == 0 && svc.cards[y].balance == old(svc.cards[y].balance) + 2500
  {
    var r := svc.TransferBetweenMyCards(TransferRequest(x, y, 2500), owner);
    CardStore.TransferredBalances(old(svc.cards), x, y, 2500);
  }

  /** A transfer from an active card to itself passes the checks and
      leaves every balance as it was. */
  method SelfTransferScenario(svc: CardService, x: Uuid, owner: Uuid, amount: int)
    requires svc.Valid() && x in svc.cards && svc.cards[x].owner == owner
    requires svc.cards[x].status == Active && 0 <= amount <= svc.cards[x].balance
    modifies svc
    ensures svc.cards == old(svc.cards)
  {
    var r := svc.TransferBetweenMyCards(TransferRequest(x, x, amount), owner);
    assert r == Pass;
    CardStore.SelfTransferIsIdentity(old(svc.cards), x, amount);
  }

  /** Another user's card is indistinguishable from a missing one. */
  method ForeignCardScenario(svc: CardService, x: Uuid, y: Uuid, caller: Uuid, now: Instant)
    requires svc.Valid() && x in svc.cards && svc.cards[x].owner != caller
    modifies svc
    ensures svc.cards == old(svc.cards) && svc.blockRequests == old(svc.blockRequests)
  {
    var t := svc.TransferBetweenMyCards(TransferRequest(x, y, 100), caller);
    assert t == Fail(CardNotFound(x));
    var b := svc.GetMyCardBalance(x, caller);
    assert b == Err(CardNotFound(x));
    var q := svc.RequestCardBlock(x, caller, now);
    assert q == Fail(CardNotFound(x));
  }

  /** Blocking an active card succeeds once; blocking it again is a
      conflict. Activating it afterwards restores the original store. */
  method BlockTwiceScenario(svc: CardService, z: Uuid)
    requires svc.Valid() && z in svc.cards && svc.cards[z].status == Active
    modifies svc
    ensures svc.cards == old(svc.cards)
  {
    var first := svc.BlockCard(z);
    assert first.Ok? && first.value.status == Blocked;
    var second := svc.BlockCard(z);
    assert second == Err(StatusAlreadySet(old(svc.cards)[z].number, Blocked));
    var third := svc.ActivateCard(z);
    assert third.Ok? && third.value.status == Active;
    assert svc.cards == old(svc.cards)[z := old(svc.cards)[z].(status := Blocked)][z := old(svc.cards)[z].(status := Active)];
  }

  /** The owner's first block request is recorded; a second one before the
      first is resolved is a duplicate, and the card itself is untouched. */
  method BlockRequestTwiceScenario(svc: CardService, w: Uuid, owner: Uuid, t1: Instant, t2: Instant)
    requires svc.Valid() && w in svc.cards && svc.cards[w].owner == owner
    requires !CardStore.HasActiveRequest(svc.blockRequests, w)
    modifies svc
    ensures svc.cards == old(svc.cards)
    ensures svc.blockRequests == old(svc.blockRequests) + [BlockRequest(w, owner, t1, RequestActive)]
    ensures CardStore.ActiveCount(svc.blockRequests, w) == 1
  {
    var first := svc.RequestCardBlock(w, owner, t1);
    assert first == Pass;
    var second := svc.RequestCardBlock(w, owner, t2);
    assert CardStore.HasActiveRequest(svc.blockRequests, w) by {
      assert svc.blockRequests[|svc.blockRequests| - 1].card == w;
    }
    assert second == Fail(DuplicateBlockRequest);
  }
}
