# Bank cards: card and user services in Dafny

This project models the service layer of a bank-card backend and proves
properties of it. It covers:

- the card service: issuing cards, reading them, and listing them through a
  filter; blocking and activating cards (a two-state machine that rejects a
  no-op transition); deleting cards; users' block requests, with a ledger
  that allows at most one active request per card; and transfers between
  two cards of the same user;
- the user service: creating, updating, deleting and reading users, with
  e-mail addresses kept unique;
- the pure helpers these services use: card-number masking, the card and
  user mappers, and the card search filter.

Money is an exact integer amount in minor units. Identifiers are natural
numbers standing for UUIDs. The environment's inputs are parameters of the
operations that use them: the current date and time, freshly generated
identifiers, and the password encoder.

Layout, one module per file:

- `model.dfy` (`Model`): entities, dates, and the errors as data.
- `card_mask.dfy` (`CardMask`): card-number masking.
- `card_mapper.dfy` (`CardMapper`): building cards and card responses.
- `card_specification.dfy` (`CardSpecification`): the search filter.
- `user_mapper.dfy` (`UserMapper`): building, updating and projecting users.
- `card_store.dfy` (`CardStore`): the card map and the block-request ledger
  as values, with the transfer and ledger lemmas.
- `card_service.dfy` (`Cards`): the card service, a class whose methods
  update the card map and the ledger.
- `user_service.dfy` (`Users`): the user service, a class over the user map.
- `scenarios.dfy` (`Scenarios`): concrete runs of the card service, checked
  from its contracts alone.

Each service call is one atomic method. It returns `Result`/`Outcome`, and
each exception the source throws is one `Error` constructor.

A transfer fetches both cards through the lookup scoped to the caller. When
both ids are the same, the two lookups return the same entity. The method
therefore writes the debit into the map and reads the destination back
before crediting it. `CardStore.Transferred` is an independent definition
of the result: a self-transfer leaves the store unchanged. The method is
proved equal to it.

## Model

| member | source | states |
|---|---|---|
| `CardMask.MaskCardNumber` | src/main/java/com/example/bankcards/util/CardMaskUtil.java:9-12 | a null number or one shorter than 4 gives exactly "****"; otherwise the result has 19 characters, starts with "**** **** **** " and ends with the input's last four |
| `CardMask.MaskPositions` | src/main/java/com/example/bankcards/util/CardMaskUtil.java:10-11 | position by position: the first 15 characters are stars with a space after each group of four; the last 4 are the input's last four; no other input character appears |
| `CardMask.MaskDependsOnlyOnLastFour` | src/main/java/com/example/bankcards/util/CardMaskUtil.java:11 | two numbers of length at least 4 mask identically if and only if their last four characters agree |
| `CardMask.MaskIdempotent` | src/main/java/com/example/bankcards/util/CardMaskUtil.java:11 | masking a masked number of length at least 4 changes nothing |
| `CardMask.MaskShortNotIdempotent` | src/main/java/com/example/bankcards/util/CardMaskUtil.java:10 | for a null number, masking twice differs from masking once ("****" is masked again) |
| `Model.PlusYears` | src/main/java/com/example/bankcards/util/CardMapperFactory.java:32 | adding years to a valid date gives a valid date in the same month; the day is kept, except that 29 February becomes 28 February in a common year |
| `CardMapper.ToCard` | src/main/java/com/example/bankcards/util/CardMapperFactory.java:27-36 | a new card is ACTIVE with balance 0; it carries the given id, owner and request number; its expiry date is today plus three years (the same day, or 28 February for 29 February in a common year), a valid date no earlier than today |
| `CardMapper.ToCardResponse` | src/main/java/com/example/bankcards/util/CardMapperFactory.java:17-25 | the response keeps id, expiration date, status and balance exactly; the number is replaced by exactly its mask: "****" when shorter than 4, otherwise "**** **** **** " followed by its last four characters |
| `CardMapper.ResponseHidesNumber` | src/main/java/com/example/bankcards/util/CardMapperFactory.java:17-25 | two cards that differ only in their number give the same response if and only if the numbers' last four characters agree |
| `CardSpecification.ByRange` | src/main/java/com/example/bankcards/repository/CardSpecification.java:52-61 | the four-case range criterion holds exactly when the value lies within each bound that is set, inclusively: no bounds is no constraint, both is an inclusive between, one is a one-sided inclusive bound |
| `CardSpecification.WithFilter` | src/main/java/com/example/bankcards/repository/CardSpecification.java:15-50 | a card matches if and only if every non-null criterion agrees with its field; a null criterion constrains nothing; the user criterion is compared with the owner's id |
| `CardSpecification.NoFilterAcceptsAll` | src/main/java/com/example/bankcards/repository/CardSpecification.java:15-30 | the all-null filter accepts every card |
| `CardSpecification.UserCriterionNarrows` | src/main/java/com/example/bankcards/repository/CardSpecification.java:42-45 | setting the user criterion keeps exactly the cards the rest of the filter accepts that this user owns |
| `UserMapper.ToUser` | src/main/java/com/example/bankcards/util/UserMapperFactory.java:13-23 | names, e-mail, phone and role are copied from the request; the stored password is the encoded one given |
| `UserMapper.UpdateUser` | src/main/java/com/example/bankcards/util/UserMapperFactory.java:25-44 | a partial update never changes the id or the creation time |
| `UserMapper.UpdateUserFields` | src/main/java/com/example/bankcards/util/UserMapperFactory.java:25-43 | each field is overwritten when the request value is non-null and kept when it is null; the password becomes the encoded one only when the request has a password |
| `UserMapper.EmptyUpdateIsIdentity` | src/main/java/com/example/bankcards/util/UserMapperFactory.java:25-44 | an all-null request leaves the user as it was |
| `UserMapper.UpdateUserIdempotent` | src/main/java/com/example/bankcards/util/UserMapperFactory.java:25-44 | applying a request twice gives the same user as applying it once |
| `UserMapper.ToResponse` | src/main/java/com/example/bankcards/util/UserMapperFactory.java:46-55 | the response carries id, names, e-mail, phone and role of the user |
| `UserMapper.ResponseOmitsPassword` | src/main/java/com/example/bankcards/util/UserMapperFactory.java:46-55 | the response does not depend on the password |
| `CardStore.FindByIdAndUserId` | src/main/java/com/example/bankcards/service/impl/CardServiceImpl.java:176-179 | the scoped lookup finds a card if and only if it exists and the given user owns it |
| `CardStore.TotalBalanceUpdate` | src/main/java/com/example/bankcards/service/impl/CardServiceImpl.java:161-165 | replacing one card changes the sum of all balances by exactly that card's change |
| `CardStore.Transferred` | src/main/java/com/example/bankcards/service/impl/CardServiceImpl.java:150-165 | the store after a transfer, with the two lookups of one id being one entity: the same card ids; only balances change; cards other than the two endpoints are untouched; the endpoints' combined balance is conserved, also when both are one card |
| `CardStore.TransferredBalances` | src/main/java/com/example/bankcards/service/impl/CardServiceImpl.java:161-165 | between two different cards: the source loses the amount and the destination gains it; their sum is conserved; only the balances change; every other card is untouched |
| `CardStore.SelfTransferIsIdentity` | src/main/java/com/example/bankcards/service/impl/CardServiceImpl.java:150-165 | a transfer from a card to itself leaves the store unchanged |
| `CardStore.TransferConservesTotal` | src/main/java/com/example/bankcards/service/impl/CardServiceImpl.java:161-165 | every transfer conserves the sum of all balances in the store |
| `CardStore.TransferKeepsNonNegative` | src/main/java/com/example/bankcards/service/impl/CardServiceImpl.java:157-165 | with 0 <= amount <= source balance, no balance becomes negative |
| `CardStore.NegativeAmountBreaksNonNegativity` | src/main/java/com/example/bankcards/service/impl/CardServiceImpl.java:157-162 | counterexample: an amount of -5 out of an empty card passes the funds check and leaves the destination at -5 |
| `CardStore.ActiveCountPositive` | src/main/java/com/example/bankcards/service/impl/CardServiceImpl.java:128-131 | a card has a positive count of active requests if and only if the ledger has an active request for it |
| `CardStore.AtMostOneActiveCount` | src/main/java/com/example/bankcards/service/impl/CardServiceImpl.java:128-141 | under the ledger invariant, no card has more than one active request |
| `CardStore.AppendActiveRequest` | src/main/java/com/example/bankcards/service/impl/CardServiceImpl.java:132-141 | appending an active request for a card with none keeps the invariant and leaves that card with exactly one |
| `Cards.CardService.GetCardByIdRaw` | src/main/java/com/example/bankcards/service/impl/CardServiceImpl.java:182-185 | returns the stored card, or CardNotFound for a missing id |
| `Cards.CardService.GetCardByIdAndUserId` | src/main/java/com/example/bankcards/service/impl/CardServiceImpl.java:176-179 | succeeds if and only if the card exists and is owned by the user; another user's card gives the same CardNotFound as a missing one |
| `Cards.CardService.CreateCard` | src/main/java/com/example/bankcards/service/impl/CardServiceImpl.java:42-49 | an unknown user gives UserNotFound and stores nothing; otherwise exactly one new card is stored, ACTIVE with balance 0, and its response is returned |
| `Cards.CardService.GetCardById` | src/main/java/com/example/bankcards/service/impl/CardServiceImpl.java:53-57 | returns the response of the stored card with that id, or CardNotFound |
| `Cards.CardService.GetAllCards` | src/main/java/com/example/bankcards/service/impl/CardServiceImpl.java:62-67 | returns exactly the cards the filter accepts, each as its response |
| `Cards.CardService.GetAllMyCards` | src/main/java/com/example/bankcards/service/impl/CardServiceImpl.java:110-116 | every returned card is owned by the caller; returns exactly the caller's cards that the rest of the filter accepts |
| `Cards.CardService.UpdateCardStatus` | src/main/java/com/example/bankcards/service/impl/CardServiceImpl.java:83-95 | a missing card gives CardNotFound and changes nothing; the current status gives StatusAlreadySet and changes nothing; otherwise only that card's status changes and its response is returned |
| `Cards.CardService.BlockCard` | src/main/java/com/example/bankcards/service/impl/CardServiceImpl.java:72-74 | an ACTIVE card becomes BLOCKED and nothing else changes; a BLOCKED card gives StatusAlreadySet; a missing card gives CardNotFound |
| `Cards.CardService.ActivateCard` | src/main/java/com/example/bankcards/service/impl/CardServiceImpl.java:79-81 | a BLOCKED card becomes ACTIVE and nothing else changes; an ACTIVE card gives StatusAlreadySet; a missing card gives CardNotFound |
| `Cards.CardService.DeleteCard` | src/main/java/com/example/bankcards/service/impl/CardServiceImpl.java:100-105 | a missing id gives CardNotFound and deletes nothing; otherwise exactly that card is removed |
| `Cards.CardService.RequestCardBlock` | src/main/java/com/example/bankcards/service/impl/CardServiceImpl.java:121-142 | a missing or foreign card gives CardNotFound; an existing active request gives DuplicateBlockRequest; otherwise exactly one active request for the card and its owner is appended; cards never change; the at-most-one-active invariant is kept |
| `Cards.CardService.TransferBetweenMyCards` | src/main/java/com/example/bankcards/service/impl/CardServiceImpl.java:149-166 | a missing or foreign source or destination gives CardNotFound; a non-ACTIVE endpoint gives CardIsNotActive; a balance below the amount gives InsufficientFunds; each failure leaves the cards unchanged. Success (equality allowed) yields exactly `Transferred`, the total of all balances is conserved, and with amount >= 0 all balances stay non-negative |
| `Cards.CardService.GetMyCardBalance` | src/main/java/com/example/bankcards/service/impl/CardServiceImpl.java:171-174 | returns the balance if and only if the caller owns the card, otherwise CardNotFound |
| `Users.ResponsesOfSize` | src/main/java/com/example/bankcards/service/impl/UserServiceImpl.java:68-73 | distinct stored users give distinct responses, so there are as many responses as users |
| `Users.UserService.CreateUser` | src/main/java/com/example/bankcards/service/impl/UserServiceImpl.java:28-38 | a taken e-mail gives EmailAlreadyExists and stores nothing; otherwise exactly one user is added, with the request's e-mail and the encoded password; e-mails stay unique |
| `Users.UserService.UpdateUser` | src/main/java/com/example/bankcards/service/impl/UserServiceImpl.java:41-57 | a missing id gives UserNotFound; an e-mail held by another user gives EmailAlreadyExists; neither error saves anything. Otherwise the partial update is stored, with the password encoded only when given; e-mails stay unique |
| `Users.UserService.DeleteUser` | src/main/java/com/example/bankcards/service/impl/UserServiceImpl.java:60-65 | a missing id gives UserNotFound and deletes nothing; otherwise exactly that user is removed |
| `Users.UserService.GetAllUsers` | src/main/java/com/example/bankcards/service/impl/UserServiceImpl.java:68-73 | exactly one response per stored user |
| `Users.UserService.GetUserById` | src/main/java/com/example/bankcards/service/impl/UserServiceImpl.java:76-80 | returns the user's response, or UserNotFound |
| `Scenarios.TransferScenario` | src/test/java/com/example/bankcards/service/impl/CardServiceImplTest.java:102-136 | 100.00 and 50.00, moving 30.00, leave 70.00 and 80.00; other cards are untouched |
| `Scenarios.TransferToBlockedScenario` | src/main/java/com/example/bankcards/service/impl/CardServiceImpl.java:153-155 | a transfer to a BLOCKED card fails with CardIsNotActive and changes no card |
| `Scenarios.InsufficientFundsScenario` | src/main/java/com/example/bankcards/service/impl/CardServiceImpl.java:157-159 | 10.00 cannot pay 50.00: InsufficientFunds, no card changes |
| `Scenarios.ExactBalanceScenario` | src/main/java/com/example/bankcards/service/impl/CardServiceImpl.java:157-162 | paying out the whole balance is allowed and leaves the source at 0 |
| `Scenarios.SelfTransferScenario` | src/main/java/com/example/bankcards/service/impl/CardServiceImpl.java:150-165 | a self-transfer passes the checks and leaves the store unchanged |
| `Scenarios.ForeignCardScenario` | src/main/java/com/example/bankcards/service/impl/CardServiceImpl.java:121-179 | transfer, balance inquiry and block request on another user's card all give CardNotFound and change nothing |
| `Scenarios.BlockTwiceScenario` | src/test/java/com/example/bankcards/service/impl/CardServiceImplTest.java:262-333 | blocking an active card succeeds; blocking it again gives StatusAlreadySet; activating it restores the original store |
| `Scenarios.BlockRequestTwiceScenario` | src/test/java/com/example/bankcards/service/impl/CardServiceImplTest.java:185-235 | the first block request is recorded; the second is a duplicate; exactly one active request remains and no card changes |

## Left out

- HTTP controllers, authentication, JWT handling and the exception-to-status
  mapping are not modelled. The caller's id is a parameter.
- The role gates (`@PreAuthorize`) are not modelled. Every method assumes
  an authorised caller.
- Transactions, locking and concurrent calls are not modelled. Each service
  call is one atomic method, so serialising concurrent transfers and block
  requests is out of scope.
- Pagination and the page mapping are not modelled. Listings return a map
  from card id to response.
- Log output and exception message texts are not modelled.
- `Cards.CardService.TransferBetweenMyCards`: no amount check. The code has
  no amount check and no InvalidAmount error, and neither does the model. Non-negativity is proved only for
  amounts >= 0, and `CardStore.NegativeAmountBreaksNonNegativity` shows the
  negative-amount case.
- `Cards.CardService.CreateCard`: the request's balance is not modelled.
  The call site (CardServiceImpl.java:47) passes `toCard(user, balance)`,
  but only `toCard(CardRequest, User)` exists, and it sets balance 0. The
  model uses the existing mapper. The request is (card number, user id).
- `Cards.CardService.CreateCard`: requires the new id to be unused in the
  store. Fresh UUIDs are an environment guarantee.
- `Users.UserService.CreateUser`: requires the new id to be unused in the
  store, for the same reason.
- `Users.UserService.CreateUser`: does not state that the encoder is not
  invoked on the error path. The encoder is a pure function parameter, so
  its invocation is not observable.
- `Users.UserService.UpdateUser`: the e-mail holder check compares ids by
  value. The source (UserServiceImpl.java:47) compares the UUID objects by
  reference.
- The scoped lookup `findByIdAndUserId` is not declared in the card
  repository; it is modelled as "the card exists and its owner is the
  caller".
- The card entity's field is `encryptedNumber`, while the service calls
  `getNumber()`; both are the one field `number`. No encryption is modelled.
- The filter object declares a `user` field, while the filter and
  `getAllMyCards` use `userId`; the model has `userId`.
- Entities that the source mutates through setters (`setStatus`,
  `setBalance`, the user setters) are values that the services write back
  into their maps. Object identity is modelled only where it matters: the
  two transfer lookups of one id.
- Deleting a card that still has block requests keeps those requests. The
  database's foreign-key behaviour is not modelled.
- Database constraints (unique card number, non-null columns) are not
  modelled.
- Request ids are not modelled, and neither is resolving a block request
  (ACTIVE to COMPLETED); the source does not implement resolution.
- BigDecimal scale is not modelled; amounts are integers in minor units.
- `getAllUsers` returns a list in repository order. The model returns a
  set, since the order is unspecified.
- Null request fields are not modelled: the model's ids and amounts are
  `nat`/`int`, which cannot be null. In the source, a null transfer amount
  throws a NullPointerException at CardServiceImpl.java:157, and null ids
  reach the repository lookups.
- `CardMask.MaskCardNumber`: lengths count Unicode scalar values. The
  source (CardMaskUtil.java:10-11) counts UTF-16 code units, so a number
  containing a supplementary character masks differently.
- The user request's role defaults to ROLE_USER (UserRequest.java:46-48). A
  request built without a role therefore overwrites the stored role at
  UserMapperFactory.java:38-40. In the model, a request's role is an
  `Option` that can be `None`, which leaves the role unchanged.
- `Cards.CardService.GetAllMyCards`: does not write the caller's id back
  into the caller's filter object (CardServiceImpl.java:111). The filter is
  a value, so that side effect on the argument is lost.
- `Users.UserService.DeleteUser`: the user and card services are modelled
  independently. Deleting a user who still owns cards (Card.java:25-27, a
  non-null `user_id`) leaves those cards with an owner id that no longer
  names a user. The database's reaction to that is not modelled.
