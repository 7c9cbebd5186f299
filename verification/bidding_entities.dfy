/** The bidding service's records: its replica of an auction, and a bid. */
module BiddingEntities {

  datatype BidStatus = Accepted | AcceptedBelowReserve | TooLow | Finished {
    /** The statuses under which a bid became the new high bid. */
    predicate IsAccepted() {
      this == Accepted || this == AcceptedBelowReserve
    }
  }

  /** A bid, as stored and as carried by `BidPlaced`; ids are the auction ids as strings. */
  datatype Bid = Bid(auctionId: string, bidder: string, bidTime: int, amount: int, status: BidStatus)

  /** The bidding service's copy of an auction: only what bid evaluation reads. */
  datatype Auction = Auction(id: string, auctionEnd: int, seller: string, reservePrice: int, finished: bool)
}
