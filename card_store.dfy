/** The card store (a map from card id to card) and the block-request
    ledger, with the facts the card service relies on: how a transfer
    changes the store, that it conserves the total of all balances, and
    that the ledger holds at most one active request per card. */
module CardStore {
  import opened Model

  // ---------------------------------------------------------------------
  // The card store
  // ---------------------------------------------------------------------

  /** Every card is stored under its own id. */
  ghost predicate KeysMatch(cards: map<Uuid, Card>) {
    forall id :: id in cards ==> cards[id].id == id
  }

  ghost predicate AllNonNegative(cards: map<Uuid, Card>) {
    forall id :: id in cards ==> cards[id].balance >= 0
  }

  /** The lookup scoped to an owner: a card that exists but belongs to
      someone else is not found. */
  function FindByIdAndUserId(cards: map<Uuid, Card>, id: Uuid, owner: Uuid): (r: Option<Card>)
    ensures r.Some? <==> id in cards && cards[id].owner == owner
    ensures r.Some? ==> r.value == cards[id]
  {
    if id in cards && cards[id].owner == owner then Some(cards[id]) else None
  }

  /** The sum of the balances of the cards under `keys`. */
  ghost function SumOver(cards: map<Uuid, Card>, keys: set<Uuid>): int
    requires keys <= cards.Keys
    decreases keys
  {
    if keys == {} then 0
    else
      var k :| k in keys;
      cards[k].balance + SumOver(cards, keys - {k})
  }

  /** The sum of all balances in the store. */
  ghost function TotalBalance(cards: map<Uuid, Card>): int {
    SumOver(cards, cards.Keys)
  }

  /** Any key can be taken out of the sum first, whichever one the
      definition happens to pick. */
  lemma {:induction false} SumOverRemove(cards: map<Uuid, Card>, keys: set<Uuid>, k: Uuid)
    requires keys <= cards.Keys && k in keys
    ensures SumOver(cards, keys) == cards[k].balance + SumOver(cards, keys - {k})
    decreases keys
  {
    var j :| j in keys && SumOver(cards, keys) == cards[j].balance + SumOver(cards, keys - {j});
    if j != k {
      SumOverRemove(cards, keys - {j}, k);
      SumOverRemove(cards, keys - {k}, j);
      assert keys - {j} - {k} == keys - {k} - {j};
    }
  }

  /** Two stores that agree on the balances under `keys` have the same sum
      over them. */
  lemma {:induction false} SumOverAgree(a: map<Uuid, Card>, b: map<Uuid, Card>, keys: set<Uuid>)
    requires keys <= a.Keys && keys <= b.Keys
    requires forall k :: k in keys ==> a[k].balance == b[k].balance
    ensures SumOver(a, keys) == SumOver(b, keys)
    decreases keys
  {
    if keys != {} {
      var k :| k in keys && SumOver(a, keys) == a[k].balance + SumOver(a, keys - {k});
      SumOverRemove(b, keys, k);
      SumOverAgree(a, b, keys - {k});
    }
  }

  /** Replacing one stored card changes the total by the change in that
      card's balance. */
  lemma TotalBalanceUpdate(cards: map<Uuid, Card>, id: Uuid, c: Card)
    requires id in cards
    ensures TotalBalance(cards[id := c]) == TotalBalance(cards) - cards[id].balance + c.balance
  {
    var updated := cards[id := c];
    assert updated.Keys == cards.Keys;
    SumOverRemove(cards, cards.Keys, id);
    SumOverRemove(updated, updated.Keys, id);
    SumOverAgree(cards, updated, cards.Keys - {id});
  }

  // ---------------------------------------------------------------------
  // Transfers
  // ---------------------------------------------------------------------

  /** The store after moving `amount` from card `fromId` to card `toId`.
      Both lookups of the service return the same entity when the ids are
      equal, so a self-transfer debits and credits one card and leaves the
      store as it was. */
  function Transferred(cards: map<Uuid, Card>, fromId: Uuid, toId: Uuid, amount: int): (r: map<Uuid, Card>)
    requires fromId in cards && toId in cards
    ensures r.Keys == cards.Keys
    ensures forall id :: id in cards ==> r[id] == cards[id].(balance := r[id].balance)
    ensures forall id :: id in cards && id != fromId && id != toId ==> r[id] == cards[id]
    ensures r[fromId].balance + r[toId].balance == cards[fromId].balance + cards[toId].balance
  {
    if fromId == toId then cards
    else
      cards[fromId := cards[fromId].(balance := cards[fromId].balance - amount)]
           [toId := cards[toId].(balance := cards[toId].balance + amount)]
  }

  /** Between two different cards: the source loses `amount`, the
      destination gains it, only the balances change, and every other card
      is untouched. */
  lemma TransferredBalances(cards: map<Uuid, Card>, fromId: Uuid, toId: Uuid, amount: int)
    requires fromId in cards && toId in cards && fromId != toId
    ensures var r := Transferred(cards, fromId, toId, amount);
      && r[fromId] == cards[fromId].(balance := cards[fromId].balance - amount)
      && r[toId] == cards[toId].(balance := cards[toId].balance + amount)
      && r[fromId].balance + r[toId].balance == cards[fromId].balance + cards[toId].balance
      && (forall id :: id in cards && id != fromId && id != toId ==> r[id] == cards[id])
  {
  }

  /** A transfer from a card to itself changes nothing. */
  lemma SelfTransferIsIdentity(cards: map<Uuid, Card>, id: Uuid, amount: int)
    requires id in cards
    ensures Transferred(cards, id, id, amount) == cards
  {
  }

  /** Conservation of funds: a transfer leaves the sum of all balances in
      the store as it was, whatever the amount. */
  lemma TransferConservesTotal(cards: map<Uuid, Card>, fromId: Uuid, toId: Uuid, amount: int)
    requires fromId in cards && toId in cards
    ensures TotalBalance(Transferred(cards, fromId, toId, amount)) == TotalBalance(cards)
  {
    if fromId != toId {
      var debited := cards[fromId := cards[fromId].(balance := cards[fromId].balance - amount)];
      TotalBalanceUpdate(cards, fromId, debited[fromId]);
      TotalBalanceUpdate(debited, toId, cards[toId].(balance := cards[toId].balance + amount));
    }
  }

  /** With a non-negative amount no larger than the source balance, a
      transfer keeps every balance non-negative. */
  lemma TransferKeepsNonNegative(cards: map<Uuid, Card>, fromId: Uuid, toId: Uuid, amount: int)
    requires fromId in cards && toId in cards
    requires AllNonNegative(cards) && 0 <= amount <= cards[fromId].balance
    ensures AllNonNegative(Transferred(cards, fromId, toId, amount))
  {
    if fromId != toId {
      TransferredBalances(cards, fromId, toId, amount);
    }
  }

  /** Without a check on the sign of the amount the funds check does not
      protect the destination: moving -5 out of an empty card passes the
      check (0 is not below -5) and leaves the destination at -5. */
  lemma NegativeAmountBreaksNonNegativity()
    ensures var from := Card(1, "4000000000000001", 7, Date(2030, 1, 1), Active, 0);
      var to := Card(2, "4000000000000002", 7, Date(2030, 1, 1), Active, 0);
      var cards := map[1 := from, 2 := to];
      && AllNonNegative(cards) && !(from.balance < -5)
      && Transferred(cards, 1, 2, -5)[2].balance == -5
      && !AllNonNegative(Transferred(cards, 1, 2, -5))
  {
    var from := Card(1, "4000000000000001", 7, Date(2030, 1, 1), Active, 0);
    var to := Card(2, "4000000000000002", 7, Date(2030, 1, 1), Active, 0);
    var cards := map[1 := from, 2 := to];
    assert Transferred(cards, 1, 2, -5)[2].balance == -5;
  }

  // ---------------------------------------------------------------------
  // The block-request ledger
  // ---------------------------------------------------------------------

  /** `existsByCardIdAndStatus(cardId, ACTIVE)`. */
  predicate HasActiveRequest(requests: seq<BlockRequest>, cardId: Uuid) {
    exists i :: 0 <= i < |requests| && requests[i].card == cardId && requests[i].status == RequestActive
  }

  /** The number of active requests for a card. */
  function ActiveCount(requests: seq<BlockRequest>, cardId: Uuid): (n: nat)
    ensures n <= |requests|
  {
    if requests == [] then 0
    else
      ActiveCount(requests[..|requests| - 1], cardId)
      + (if requests[|requests| - 1].card == cardId && requests[|requests| - 1].status == RequestActive
         then 1 else 0)
  }

  /** No two active requests name the same card. */
  ghost predicate AtMostOneActivePerCard(requests: seq<BlockRequest>) {
    forall i, j ::
      (0 <= i < j < |requests| && requests[i].status == RequestActive && requests[j].status == RequestActive)
      ==> requests[i].card != requests[j].card
  }

  lemma {:induction false} ActiveCountPositive(requests: seq<BlockRequest>, cardId: Uuid)
    ensures ActiveCount(requests, cardId) > 0 <==> HasActiveRequest(requests, cardId)
  {
    if requests != [] {
      var init := requests[..|requests| - 1];
      ActiveCountPositive(init, cardId);
      if HasActiveRequest(init, cardId) {
        var i :| 0 <= i < |init| && init[i].card == cardId && init[i].status == RequestActive;
        assert requests[i] == init[i];
      }
      if HasActiveRequest(requests, cardId) && !HasActiveRequest(init, cardId) {
        var i :| 0 <= i < |requests| && requests[i].card == cardId && requests[i].status == RequestActive;
        assert i == |requests| - 1;
      }
    }
  }

  /** Under the ledger invariant every card has at most one active
      request. */
  lemma {:induction false} AtMostOneActiveCount(requests: seq<BlockRequest>, cardId: Uuid)
    requires AtMostOneActivePerCard(requests)
    ensures ActiveCount(requests, cardId) <= 1
  {
    if requests != [] {
      var init := requests[..|requests| - 1];
      var last := requests[|requests| - 1];
      assert AtMostOneActivePerCard(init) by {
        forall i, j | 0 <= i < j < |init| && init[i].status == RequestActive && init[j].status == RequestActive
          ensures init[i].card != init[j].card
        {
          assert init[i] == requests[i] && init[j] == requests[j];
        }
      }
      AtMostOneActiveCount(init, cardId);
      if last.card == cardId && last.status == RequestActive {
        ActiveCountPositive(init, cardId);
        assert !HasActiveRequest(init, cardId);
      }
    }
  }

  /** Appending an active request for a card that has none keeps the
      invariant and leaves that card with exactly one active request. */
  lemma AppendActiveRequest(requests: seq<BlockRequest>, r: BlockRequest)
    requires AtMostOneActivePerCard(requests) && !HasActiveRequest(requests, r.card)
    requires r.status == RequestActive
    ensures AtMostOneActivePerCard(requests + [r])
    ensures ActiveCount(requests + [r], r.card) == 1
  {
    var appended := requests + [r];
    assert appended[..|appended| - 1] == requests;
    ActiveCountPositive(requests, r.card);
    forall i, j | 0 <= i < j < |appended| && appended[i].status == RequestActive
      && appended[j].status == RequestActive
      ensures appended[i].card != appended[j].card
    {
      if j == |requests| {
        assert appended[i] == requests[i];
      } else {
        assert appended[i] == requests[i] && appended[j] == requests[j];
      }
    }
  }
}
