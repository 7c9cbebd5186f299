# Carsties auction core in Dafny

Carsties is a car-auction system split into services that talk over a
message bus. This project models the part of it that decides who wins what.

- **Auction service.**
  - `AuctionsController` keeps the auction records. Every create, update
    and delete of a record is stored together with the event announcing it,
    through a transactional outbox.
  - `AuctionFinishedConsumer` records the outcome when an auction ends. It
    sets the winner and the sold amount, then sets the final status by
    comparing the sold amount with the reserve price.
- **Bidding service.** `BidsController` accepts bids. It looks the auction
  up in its local replica first and asks the auction service only when the
  replica lacks it. It rejects unknown auctions and bids on the caller's own
  auction. Every other bid gets one of four statuses: `Accepted`,
  `AcceptedBelowReserve`, `TooLow` or `Finished`. The status depends on the
  clock, the auction end, the current high bid and the reserve. The
  controller then stores the bid and publishes `BidPlaced`. It also lists an
  auction's bids, newest first.
- **Search service.** `AuctionSvcHttpClient` catches up with the auction
  service. It takes the newest `UpdatedAt` among its local records as a
  watermark and asks for every auction updated strictly after it.

Modules, one per source component:

| module | contents |
|---|---|
| `Wrappers` | `Option`, `Result`, and C#'s lifted `>` on a nullable int (null compares false) |
| `Guids` | GUIDs as 32 hex digits, printing in the `D` form, and parsing that form in either letter case |
| `StringOrder` | ordinal lexicographic order on strings, used to order listings by make |
| `AuctionEntities` | `Auction`, `Item`, `Status`, and `HasReservePrice` |
| `BiddingEntities` | the bidding service's `Bid`, `BidStatus` and `Auction` replica |
| `Contracts` | the bus messages |
| `AuctionData` | the auction table keyed by id, together with the outbox of events |
| `BidsController` | `PlaceBid`, `GetBidsForAuction`, and invariants over sequences of bids |
| `AuctionFinishedConsumer` | `Consume` and its settlement rule |
| `AuctionsController` | the five endpoints |
| `AuctionSvcHttpClient` | the watermark and the catch-up pull |
| `EndToEnd` | how the bidding and settlement rules agree, with worked scenarios |

Effects are modelled as follows:
- A database is a value that each operation returns updated.
- The clock (`now`), the new auction's id, and whether `SaveChangesAsync`
  reported a change (`saved`) are parameters.
- The new auction's id is assumed fresh: `CreateAuction` requires that no
  stored auction has it. In the code, a colliding generated id would make
  the save throw; the model does not cover that case.
- Every auction row is stored under its own id (`KeysMatchIds`). Every
  operation preserves this, and the listing requires it.
- The bidding service's call to the auction service is a function-typed
  parameter.
- An uncaught exception in the consumer becomes a `Failure`.

Three things the code does not do, and the model keeps them out:
- The consumer has no "status only moves forward" guard. It re-derives the
  status from whatever message arrives, so a redelivered or later message
  overwrites the previous settlement.
- The bidding service has no optimistic-concurrency check and no
  tie-breaking rule. A bid equal to the high bid is `TooLow`.
- `CreateAuction` publishes `AuctionCreated` before it saves. The model
  still treats the event and the row as one unit, because the bus outbox
  (src/AuctionService/Program.cs lines 19-24) commits them together.

## Model

| member | source | states |
|---|---|---|
| Guids.Parse | src/AuctionService/Consumers/AuctionFinishedConsumer.cs:21 | a string parses exactly when it is a hyphenated 8-4-4-4-12 hex GUID in either case; the parsed GUID prints back as the lower-cased input |
| Guids.ParseFormat | src/AuctionService/Controllers/AuctionsController.cs:114 | the id printed into `AuctionDeleted` (and into any message) parses back to the same GUID |
| BidsController.HighBid | src/BiddingService/Controllers/BidsController.cs:57-60 | the high bid is absent exactly when the auction has no stored bid; otherwise it is the amount of some stored bid of that auction and no stored bid of it is higher |
| BidsController.StatusFor | src/BiddingService/Controllers/BidsController.cs:51-73 | the two sequential status assignments give each status one exact condition: `Finished` iff the end is past; `TooLow` iff open and not above the high bid; `Accepted` iff open, above the high bid (or the first bid) and above the reserve; `AcceptedBelowReserve` iff the same but not above the reserve |
| BidsController.PlaceBid | src/BiddingService/Controllers/BidsController.cs:28-80 | the auction is read from the replica, and from the remote lookup only when the replica lacks it; an auction found in neither, and a bid on one's own auction, are rejected with their messages and change nothing; otherwise one bid with the caller, amount, time and evaluated status is stored and exactly one `BidPlaced` for it is published |
| BidsController.ReplicaFirst | src/BiddingService/Controllers/BidsController.cs:30-37 | when the replica holds the auction, the remote lookup has no influence on the outcome |
| BidsController.PlaceBidKeepsAcceptedMaxima | src/BiddingService/Controllers/BidsController.cs:57-75 | placing a bid keeps the invariant that every accepted bid is strictly higher than every earlier bid on the same auction |
| BidsController.ReplayKeepsAcceptedIncreasing | src/BiddingService/Controllers/BidsController.cs:57-75 | along any sequence of bid requests, the accepted bids of each auction form a strictly increasing sequence of amounts |
| BidsController.GetBidsForAuction | src/BiddingService/Controllers/BidsController.cs:84-92 | the result is a permutation of exactly the stored bids with the auction's id, ordered by bid time, newest first |
| AuctionFinishedConsumer.Settle | src/AuctionService/Consumers/AuctionFinishedConsumer.cs:23-30 | a sale records the message's winner and amount, otherwise they are kept; the status is `Finished` iff a sold amount exists and exceeds the reserve, else `ReserveNotMet`, never `Live`; no other field changes |
| AuctionFinishedConsumer.Consume | src/AuctionService/Consumers/AuctionFinishedConsumer.cs:17-33 | a malformed id and an unknown id fail, and any other id succeeds; on success only the addressed auction changes (by `Settle`), the keys and the outbox stay, and keys keep matching ids |
| AuctionFinishedConsumer.SettleIdempotent | src/AuctionService/Consumers/AuctionFinishedConsumer.cs:23-30 | settling twice with one message equals settling once |
| AuctionFinishedConsumer.ConsumeIdempotent | src/AuctionService/Consumers/AuctionFinishedConsumer.cs:17-33 | redelivering a consumed message leaves the table as the first delivery did |
| AuctionFinishedConsumer.NoReserveSaleFinishes | src/AuctionService/Consumers/AuctionFinishedConsumer.cs:29-30 | an auction without a reserve (as `HasReservePrice` defines it) sold for a positive amount finishes |
| AuctionFinishedConsumer.ConsumeOfStoredAuction | src/AuctionService/Consumers/AuctionFinishedConsumer.cs:21 | a message carrying a stored auction's printed id always succeeds and settles that auction |
| AuctionsController.GetAllAuctions | src/AuctionService/Controllers/AuctionsController.cs:33-43 | the listing holds every stored auction updated strictly after the date (all, when no date) and nothing else, one entry per matching row, ordered by make |
| AuctionsController.GetAuctionById | src/AuctionService/Controllers/AuctionsController.cs:45-56 | a non-GUID route id is rejected, an unknown id is NotFound, and a stored id returns its auction |
| AuctionsController.CreateAuction | src/AuctionService/Controllers/AuctionsController.cs:58-77 | a committed create adds exactly the new auction (seller "test", status Live, fields from the request) and exactly one `AuctionCreated`; a failed save changes nothing and answers "Could not save changes to the DB" |
| AuctionsController.ApplyUpdate | src/AuctionService/Controllers/AuctionsController.cs:88-92 | each of make, model, color, mileage and year takes the request's value when present and keeps the stored one when absent; nothing else changes |
| AuctionsController.UpdateAuction | src/AuctionService/Controllers/AuctionsController.cs:79-101 | Ok iff the id is stored and the save commits; then only that auction changes and one `AuctionUpdated` with the updated auction is appended; otherwise nothing changes, with NotFound or "Problem saving changes." |
| AuctionsController.UpdateAuctionIdempotent | src/AuctionService/Controllers/AuctionsController.cs:79-101 | repeating an update leaves the table as one update did |
| AuctionsController.DeleteAuction | src/AuctionService/Controllers/AuctionsController.cs:103-121 | Ok iff the id is stored and the save commits; then exactly that key is removed and `AuctionDeleted` carries an id that parses back to it; otherwise nothing changes, with NotFound or "Could not update DB." |
| AuctionsController.CreateThenGetById | src/AuctionService/Controllers/AuctionsController.cs:58-77 | a created auction is found under its printed id |
| AuctionsController.DeleteThenGetById | src/AuctionService/Controllers/AuctionsController.cs:103-121 | after a delete, the same id is NotFound |
| AuctionSvcHttpClient.Watermark | src/SearchService/Services/AuctionSvcHttpClient.cs:18-21 | the watermark is absent exactly when there are no local records; otherwise it is the greatest local `UpdatedAt` |
| AuctionSvcHttpClient.GetItemsForSearchDb | src/SearchService/Services/AuctionSvcHttpClient.cs:16-25 | the fetched items are exactly the stored auctions updated strictly after the watermark (all of them when there are no local records), ordered by make |
| AuctionSvcHttpClient.AfterWatermark | src/SearchService/Services/AuctionSvcHttpClient.cs:18-24 | an auction is updated after the watermark exactly when it is updated after every local record, so the pull misses no newer auction and refetches none stamped at the watermark |
| EndToEnd.AcceptedSaleFinishes | src/AuctionService/Consumers/AuctionFinishedConsumer.cs:29-30 | a bid the bidding service marks `Accepted`, reported as the sale, settles the auction as `Finished` |
| EndToEnd.BelowReserveSaleNotMet | src/AuctionService/Consumers/AuctionFinishedConsumer.cs:29-30 | a bid marked `AcceptedBelowReserve`, reported as the sale, settles as `ReserveNotMet` |
| EndToEnd.ReserveScenario | src/BiddingService/Controllers/BidsController.cs:57-72 | with reserve 10000, bids of 9000, 11000 and 10500 are `AcceptedBelowReserve`, `Accepted` and `TooLow`, and all three are stored and announced |
| EndToEnd.SoldAboveReserveScenario | src/AuctionService/Consumers/AuctionFinishedConsumer.cs:23-30 | a sale at 11000 against reserve 10000 finishes the auction with that winner and amount |
| EndToEnd.UnsoldScenario | src/AuctionService/Consumers/AuctionFinishedConsumer.cs:23-30 | an unsold report leaves no winner and settles as `ReserveNotMet` |

## Left out

- Message transport: delivery, retries, fault consumers and the outbox's delivery delay. An event in the outbox counts as published.
- Concurrency: two bids racing between reading the high bid and saving are not modelled. Every call is atomic.
- PostgreSQL, MongoDB, Entity Framework, gRPC and `HttpClient` are abstract. Tables are maps, the remote auction lookup is a function, and the HTTP call is a direct call to the listing.
- Dates are integers. The search service's round trip of the watermark through `ToString` and `DateTime.Parse`, and `ToUniversalTime`, are taken as exact.
- AutoMapper projections to DTOs: responses carry the entity itself.
- JWT authentication and the `[Authorize]` attributes: the caller's name is a parameter.
- Model-state validation of request bodies is not modelled.
- AuctionsController.GetAllAuctions: the code orders by `Make` in the database's collation. The contract promises ordinal order (`StringOrder.Le`) instead, and leaves ties in any order. AuctionSvcHttpClient.GetItemsForSearchDb inherits this order.
- Guids.Parse: accepts only the hyphenated `D` form, in either letter case. .NET's `Guid.Parse` and route binding also accept the `N`, `B`, `P` and `X` forms and text padded with whitespace; for those this model returns `None`. The narrowing carries into AuctionFinishedConsumer.Consume, AuctionsController.GetAuctionById, AuctionsController.UpdateAuction and AuctionsController.DeleteAuction, which report a malformed id where the code would accept it.
- The Auction entity's source is not available, so its defaults are assumed. The creation timestamps are parameters, the initial status is assumed to be `Live`, and `HasReservePrice` follows the entity's tests (`reservePrice > 0`).
- The bidding service's `DB.SaveAsync` and `Publish` are assumed to succeed. The bid's database id is not modelled, and `BidTime` is the `now` parameter.
- The bidding service's replica is never updated by `PlaceBid`, since auctions fetched remotely are not cached. The consumers that fill the replica are not part of this model.
- The notification service's consumers only forward messages to clients and are left out.
- The search service's initialiser that bulk-saves the fetched items is left out; the model stops at the fetched list.
- Ownership checks on update and delete are TODOs in the code, so the model has none. The controller's tests expect a 403 Forbid for a caller who is not the seller, which this code never returns.
- `CreateAuction` always sets the seller to "test". The integration tests expect the authenticated user's name ("bob"), but the model follows the code.
- AuctionFinishedConsumer.Consume: a save in the consumer that stores nothing is not modelled, because the code ignores its result.
