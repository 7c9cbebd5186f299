/**
 * Properties that cross the services: the bidding service's reserve rule
 * agrees with the auction service's settlement, and the worked examples of
 * a reserve auction from bidding to settlement.
 */
module EndToEnd {
  import opened Wrappers
  import BiddingEntities
  import AuctionEntities
  import BidsController
  import AuctionFinishedConsumer
  import Contracts

  /**
   * A bid the evaluator marks `Accepted` clears the reserve, so when it is
   * reported as the sale the auction settles as `Finished`.
   */
  lemma AcceptedSaleFinishes(
    a: AuctionEntities.Auction, now: int, auctionEnd: int, highBid: Option<int>, amount: int,
    msg: Contracts.AuctionFinished)
    requires BidsController.StatusFor(now, auctionEnd, a.reservePrice, highBid, amount) == BiddingEntities.Accepted
    requires msg.itemSold && msg.amount == Some(amount)
    ensures AuctionFinishedConsumer.Settle(a, msg).status == AuctionEntities.Finished
  {
  }

  /** A bid marked `AcceptedBelowReserve`, reported as the sale, settles as `ReserveNotMet`. */
  lemma BelowReserveSaleNotMet(
    a: AuctionEntities.Auction, now: int, auctionEnd: int, highBid: Option<int>, amount: int,
    msg: Contracts.AuctionFinished)
    requires BidsController.StatusFor(now, auctionEnd, a.reservePrice, highBid, amount) == BiddingEntities.AcceptedBelowReserve
    requires msg.itemSold && msg.amount == Some(amount)
    ensures AuctionFinishedConsumer.Settle(a, msg).status == AuctionEntities.ReserveNotMet
  {
  }

  const Reserve := 10000
  const End := 100
  const Replica := BiddingEntities.Auction("a1", End, "alice", Reserve, false)

  function Bidding(): BidsController.BiddingDb {
    BidsController.BiddingDb(map["a1" := Replica], [], [])
  }

  function Request(amount: int): BidsController.BidRequest {
    BidsController.BidRequest("a1", amount, "bob", 50)
  }

  /**
   * With a reserve of 10000, bids of 9000, 11000 and 10500 before the end are
   * `AcceptedBelowReserve`, `Accepted` and `TooLow`, and all three are stored
   * and announced.
   */
  lemma ReserveScenario(lookup: BidsController.AuctionLookup)
    ensures var db := BidsController.Replay(Bidding(), lookup, [Request(9000), Request(11000), Request(10500)]);
            && |db.bids| == 3 && |db.published| == 3
            && db.bids[0].status == BiddingEntities.AcceptedBelowReserve
            && db.bids[1].status == BiddingEntities.Accepted
            && db.bids[2].status == BiddingEntities.TooLow
  {
    var requests := [Request(9000), Request(11000), Request(10500)];
    var b1 := BiddingEntities.Bid("a1", "bob", 50, 9000, BiddingEntities.AcceptedBelowReserve);
    var b2 := BiddingEntities.Bid("a1", "bob", 50, 11000, BiddingEntities.Accepted);
    var b3 := BiddingEntities.Bid("a1", "bob", 50, 10500, BiddingEntities.TooLow);
    var db1 := Bidding().(bids := [b1], published := [Contracts.BidPlaced(b1)]);
    var db2 := db1.(bids := [b1, b2], published := db1.published + [Contracts.BidPlaced(b2)]);
    var db3 := db2.(bids := [b1, b2, b3], published := db2.published + [Contracts.BidPlaced(b3)]);
    assert BidsController.HighBid([], "a1") == None;
    assert BidsController.PlaceBid(Bidding(), lookup, "a1", 9000, "bob", 50).db == db1;
    assert BidsController.HighBid([b1], "a1") == Some(9000);
    assert BidsController.PlaceBid(db1, lookup, "a1", 11000, "bob", 50).db == db2;
    assert BidsController.HighBid([b1, b2], "a1") == Some(11000);
    assert BidsController.PlaceBid(db2, lookup, "a1", 10500, "bob", 50).db == db3;
    assert requests[1..] == [Request(11000), Request(10500)];
    assert requests[1..][1..] == [Request(10500)];
    assert BidsController.Replay(db3, lookup, []) == db3;
  }

  function Listed(): AuctionEntities.Auction {
    AuctionEntities.Auction(
      "00000000000000000000000000000001", Reserve, "alice", None, None, 0, 0, End, AuctionEntities.Live,
      AuctionEntities.Item("Ford", "GT", 2020, "White", 50000, ""))
  }

  /** The winning bid of 11000 clears the reserve of 10000: the auction finishes, sold to its bidder. */
  lemma SoldAboveReserveScenario()
    ensures var settled := AuctionFinishedConsumer.Settle(
              Listed(), Contracts.AuctionFinished(true, "", Some("bob"), "alice", Some(11000)));
            settled.status == AuctionEntities.Finished && settled.winner == Some("bob") && settled.soldAmount == Some(11000)
  {
  }

  /** When no sale is reported, the reserve is not met and no winner or amount is recorded. */
  lemma UnsoldScenario()
    ensures var settled := AuctionFinishedConsumer.Settle(
              Listed(), Contracts.AuctionFinished(false, "", None, "alice", None));
            settled.status == AuctionEntities.ReserveNotMet && settled.winner.None? && settled.soldAmount.None?
  {
  }
}
