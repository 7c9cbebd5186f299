/**
 * The auction service's consumer of the end-of-auction signal: it records
 * the winner and the sold amount when the item sold, then derives the
 * final status from the sold amount and the reserve price.
 */
module AuctionFinishedConsumer {
  import opened Wrappers
  import opened Guids
  import opened AuctionEntities
  import opened AuctionData
  import Contracts

  /** `MalformedAuctionId` is `Guid.Parse`'s exception; `AuctionNotFound` the null dereference of a missing row. */
  datatype ConsumeError = MalformedAuctionId | AuctionNotFound

  /** The settlement of one auction by a finished message. */
  function Settle(a: Auction, msg: Contracts.AuctionFinished): (r: Auction)
    ensures msg.itemSold ==> r.winner == msg.winner && r.soldAmount == msg.amount
    ensures !msg.itemSold ==> r.winner == a.winner && r.soldAmount == a.soldAmount
    ensures r.status == Finished <==> r.soldAmount.Some? && r.soldAmount.value > a.reservePrice
    ensures r.status == ReserveNotMet <==> r.soldAmount.None? || r.soldAmount.value <= a.reservePrice
    ensures r.status != Live
    ensures r.(winner := a.winner, soldAmount := a.soldAmount, status := a.status) == a
  {
    var recorded := if msg.itemSold then a.(winner := msg.winner, soldAmount := msg.amount) else a;
    recorded.(status := if LiftedGreater(recorded.soldAmount, recorded.reservePrice) then Finished else ReserveNotMet)
  }

  /**
   * Consumes an `AuctionFinished` message. Only the addressed auction
   * changes, and in it only winner, sold amount and status; no event is
   * published. A malformed or unknown id fails without any change.
   */
  function Consume(db: AuctionDb, msg: Contracts.AuctionFinished): (r: Result<AuctionDb, ConsumeError>)
    ensures Parse(msg.auctionId).None? ==> r == Failure(MalformedAuctionId)
    ensures Parse(msg.auctionId).Some? && Parse(msg.auctionId).value !in db.auctions ==> r == Failure(AuctionNotFound)
    ensures r.Success? <==> Parse(msg.auctionId).Some? && Parse(msg.auctionId).value in db.auctions
    ensures r.Success? ==>
              var id := Parse(msg.auctionId).value;
              && id in db.auctions
              && r.value.auctions.Keys == db.auctions.Keys
              && r.value.auctions[id] == Settle(db.auctions[id], msg)
              && (forall k :: k in db.auctions && k != id ==> r.value.auctions[k] == db.auctions[k])
              && r.value.outbox == db.outbox
    ensures KeysMatchIds(db.auctions) && r.Success? ==> KeysMatchIds(r.value.auctions)
  {
    match Parse(msg.auctionId)
    case None => Failure(MalformedAuctionId)
    case Some(id) =>
      if id !in db.auctions then Failure(AuctionNotFound)
      else Success(db.(auctions := db.auctions[id := Settle(db.auctions[id], msg)]))
  }

  /** Settling twice with the same message is settling once. */
  lemma SettleIdempotent(a: Auction, msg: Contracts.AuctionFinished)
    ensures Settle(Settle(a, msg), msg) == Settle(a, msg)
  {
    var once := Settle(a, msg);
    assert once.reservePrice == a.reservePrice;
  }

  /** Redelivering the same message leaves the database as one delivery did. */
  lemma ConsumeIdempotent(db: AuctionDb, msg: Contracts.AuctionFinished)
    ensures Consume(db, msg).Success? ==> Consume(Consume(db, msg).value, msg) == Consume(db, msg)
  {
    if Consume(db, msg).Success? {
      var id := Parse(msg.auctionId).value;
      var once := Consume(db, msg).value;
      SettleIdempotent(db.auctions[id], msg);
      assert once.auctions[id := Settle(once.auctions[id], msg)] == once.auctions;
    }
  }

  /** Without a reserve, any positive sale amount finishes the auction. */
  lemma NoReserveSaleFinishes(a: Auction, msg: Contracts.AuctionFinished)
    requires !a.HasReservePrice()
    requires msg.itemSold && msg.amount.Some? && msg.amount.value > 0
    ensures Settle(a, msg).status == Finished
  {
  }

  /** The id printed into a message by the auction service is always understood by this consumer. */
  lemma ConsumeOfStoredAuction(db: AuctionDb, id: Guid, msg: Contracts.AuctionFinished)
    requires id in db.auctions && msg.auctionId == Format(id)
    ensures Consume(db, msg).Success?
    ensures Consume(db, msg).value.auctions[id] == Settle(db.auctions[id], msg)
  {
    ParseFormat(id);
  }
}
