/** Messages exchanged between the services over the event bus. */
module Contracts {
  import opened Wrappers
  import AuctionEntities
  import BiddingEntities

  /** Events the services publish. */
  datatype Event =
    | AuctionCreated(auction: AuctionEntities.Auction)
    | AuctionUpdated(auction: AuctionEntities.Auction)
    | AuctionDeleted(id: string)
    | BidPlaced(bid: BiddingEntities.Bid)

  /** The end-of-auction signal the auction service consumes. */
  datatype AuctionFinished = AuctionFinished(
    itemSold: bool,
    auctionId: string,
    winner: Option<string>,
    seller: string,
    amount: Option<int>)
}
