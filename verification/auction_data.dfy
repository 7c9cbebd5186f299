/**
 * The auction service's database: the auctions table keyed by id, and the
 * transactional outbox. An event published while handling a request is
 * written to the outbox in the same save as the request's changes, so it
 * becomes visible exactly when that save commits.
 */
module AuctionData {
  import opened Guids
  import opened AuctionEntities
  import Contracts

  datatype AuctionDb = AuctionDb(auctions: map<Guid, Auction>, outbox: seq<Contracts.Event>)

  /** Every row is stored under its own primary key. */
  ghost predicate KeysMatchIds(auctions: map<Guid, Auction>) {
    forall k :: k in auctions ==> auctions[k].id == k
  }
}
