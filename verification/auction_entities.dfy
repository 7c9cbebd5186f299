/** The auction service's records: an auction and the item it sells. */
module AuctionEntities {
  import opened Wrappers
  import opened Guids

  datatype Status = Live | Finished | ReserveNotMet

  datatype Item = Item(
    make: string,
    model: string,
    year: int,
    color: string,
    mileage: int,
    imageUrl: string)

  /** Timestamps are integer instants; money amounts are integers. */
  datatype Auction = Auction(
    id: Guid,
    reservePrice: int,
    seller: string,
    winner: Option<string>,
    soldAmount: Option<int>,
    createdAt: int,
    updatedAt: int,
    auctionEnd: int,
    status: Status,
    item: Item)
  {
    /** An auction has a reserve when its reserve price is positive. */
    predicate HasReservePrice() {
      reservePrice > 0
    }
  }
}
